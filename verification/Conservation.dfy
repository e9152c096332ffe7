/** Custody of the bond ledger over every run, whatever the escrow and the makers do. */
module Conservation {
  import opened Bytes
  import opened Results
  import opened Sums
  import opened Ledger

  // ---- what the ledger owes ----

  ghost function ActiveAmounts(bonds: map<Hash, LockedBond>): map<Hash, nat> {
    map id: Hash | id in bonds && bonds[id].active :: bonds[id].amount
  }

  ghost function ActiveOf(bonds: map<Hash, LockedBond>, maker: Address): map<Hash, nat> {
    map id: Hash | id in bonds && bonds[id].active && bonds[id].maker == maker :: bonds[id].amount
  }

  /** Free bond and active locked bond, over all makers. */
  ghost function Owed(b: Records): nat {
    Sum(b.free) + Sum(ActiveAmounts(b.bonds))
  }

  /** One maker's free bond and active locked bonds. */
  ghost function Stake(b: Records, maker: Address): nat {
    Get(b.free, maker) + Sum(ActiveOf(b.bonds, maker))
  }

  /** Tokens at the ledger's address that no maker has a claim to. */
  ghost function Stranded(s: Vault, self: Address): int {
    Get(s.token, self) - Owed(s.book)
  }

  function ActiveAmount(b: Records, id: Hash): nat {
    if Active(b, id) then b.bonds[id].amount else 0
  }

  lemma WithFreeOwed(b: Records, who: Address, amount: nat)
    ensures Owed(WithFree(b, who, amount)) == Owed(b) - Get(b.free, who) + amount
    ensures Stake(WithFree(b, who, amount), who) == Stake(b, who) - Get(b.free, who) + amount
    ensures forall m | m != who :: Stake(WithFree(b, who, amount), m) == Stake(b, m)
  {
    SumSet(b.free, who, amount);
  }

  lemma DeactivatedOwed(b: Records, id: Hash)
    requires Active(b, id)
    ensures Owed(Deactivated(b, id)) == Owed(b) - b.bonds[id].amount
    ensures Stake(Deactivated(b, id), b.bonds[id].maker) == Stake(b, b.bonds[id].maker) - b.bonds[id].amount
    ensures forall m | m != b.bonds[id].maker :: Stake(Deactivated(b, id), m) == Stake(b, m)
  {
    var after := Deactivated(b, id).bonds;
    SumDrop(ActiveAmounts(b.bonds), id);
    assert ActiveAmounts(after) == ActiveAmounts(b.bonds) - {id};
    forall m
      ensures m == b.bonds[id].maker ==> ActiveOf(after, m) == ActiveOf(b.bonds, m) - {id}
      ensures m != b.bonds[id].maker ==> ActiveOf(after, m) == ActiveOf(b.bonds, m)
    {
    }
    SumDrop(ActiveOf(b.bonds, b.bonds[id].maker), id);
  }

  /** The stake m holds in the record under an id. */
  function Share(b: Records, id: Hash, m: Address): nat {
    if Active(b, id) && b.bonds[id].maker == m then b.bonds[id].amount else 0
  }

  lemma RecordedStake(b: Records, id: Hash, lb: LockedBond, m: Address)
    requires lb.active
    ensures Stake(b.(bonds := b.bonds[id := lb]), m) == Stake(b, m) - Share(b, id, m) + if m == lb.maker then lb.amount else 0
  {
    var before, after := ActiveOf(b.bonds, m), ActiveOf(b.bonds[id := lb], m);
    if m == lb.maker {
      SumSet(before, id, lb.amount);
      assert after == before[id := lb.amount];
    } else {
      SumDrop(before, id);
      assert after == before - {id};
    }
  }

  /** A record newly written as active adds its amount; an active one it overwrites is forgotten. */
  lemma RecordedOwed(b: Records, id: Hash, lb: LockedBond)
    requires lb.active
    ensures Owed(b.(bonds := b.bonds[id := lb])) == Owed(b) - ActiveAmount(b, id) + lb.amount
  {
    SumSet(ActiveAmounts(b.bonds), id, lb.amount);
    assert ActiveAmounts(b.bonds[id := lb]) == ActiveAmounts(b.bonds)[id := lb.amount];
  }

  // ---- runs ----

  /** approved: whether the caller's allowance lets transferFrom through. */
  datatype Step =
    | Deposit(caller: Address, amount: nat, approved: bool)
    | Withdraw(caller: Address, amount: nat)
    | Lock(caller: Address, id: Hash, maker: Address, amount: nat)
    | Release(caller: Address, id: Hash)
    | Slash(caller: Address, id: Hash, to: Address)
    | Bind(caller: Address, e: Address)
    | Send(from: Address, to: Address, amount: nat)

  function OrUnchanged(s: Vault, r: Result<Vault, Revert>): Vault {
    match r case Ok(t) => t case Err(_) => s
  }

  function Booked(s: Vault, r: Result<Records, Revert>): Result<Vault, Revert> {
    match r case Ok(b) => Ok(s.(book := b)) case Err(e) => Err(e)
  }

  function Try(s: Vault, self: Address, step: Step): Result<Vault, Revert> {
    match step
    case Deposit(caller, amount, approved) => DepositBond(s, self, caller, amount, approved)
    case Withdraw(caller, amount) => WithdrawBond(s, self, caller, amount)
    case Lock(caller, id, maker, amount) => Booked(s, LockBond(s.book, caller, id, maker, amount))
    case Release(caller, id) => Booked(s, ReleaseBond(s.book, caller, id))
    case Slash(caller, id, to) => SlashBond(s, self, caller, id, to)
    case Bind(caller, e) => Booked(s, SetEscrow(s.book, caller, e))
    case Send(from, to, amount) =>
      match Transfer(s.token, from, to, amount)
      case Ok(t) => Ok(s.(token := t))
      case Err(e) => Err(e)
  }

  /** The ledger calls neither itself nor the token but through the six operations. */
  predicate External(self: Address, step: Step) {
    match step
    case Deposit(caller, _, _) => caller != self
    case Withdraw(caller, _) => caller != self
    case Send(from, _, _) => from != self
    case _ => true
  }

  function Next(s: Vault, self: Address, step: Step): Vault {
    if External(self, step) then OrUnchanged(s, Try(s, self, step)) else s
  }

  predicate Succeeds(s: Vault, self: Address, step: Step) {
    External(self, step) && Try(s, self, step).Ok?
  }

  /** What a step strands: a donation, an active bond locked over, or a slash paid to the ledger itself. */
  function Strands(s: Vault, self: Address, step: Step): nat {
    if !Succeeds(s, self, step) then 0
    else
      match step
      case Lock(_, id, _, _) => ActiveAmount(s.book, id)
      case Slash(_, id, to) => if to == self then ActiveAmount(s.book, id) else 0
      case Send(_, to, amount) => if to == self then amount else 0
      case _ => 0
  }

  function Out(amount: nat): int { 0 - amount }

  /** What a step moves in or out of one maker's stake. */
  function Flow(s: Vault, self: Address, maker: Address, step: Step): int {
    if !Succeeds(s, self, step) then 0
    else
      match step
      case Deposit(caller, amount, _) => if caller == maker then amount else 0
      case Withdraw(caller, amount) => Out(if caller == maker then amount else 0)
      case Slash(_, id, _) => Out(Share(s.book, id, maker))
      case Lock(_, id, _, _) => Out(Share(s.book, id, maker))
      case _ => 0
  }

  lemma DepositEffect(s: Vault, self: Address, caller: Address, amount: nat, m: Address)
    requires caller != self && DepositBond(s, self, caller, amount, true).Ok?
    ensures var t := DepositBond(s, self, caller, amount, true).value;
            Stranded(t, self) == Stranded(s, self) && Stake(t.book, m) == Stake(s.book, m) + if m == caller then amount else 0
  {
    TransferMoves(s.token, caller, self, amount);
    WithFreeOwed(s.book, caller, Get(s.book.free, caller) + amount);
  }

  lemma WithdrawEffect(s: Vault, self: Address, caller: Address, amount: nat, m: Address)
    requires caller != self && WithdrawBond(s, self, caller, amount).Ok?
    ensures var t := WithdrawBond(s, self, caller, amount).value;
            Stranded(t, self) == Stranded(s, self) && Stake(t.book, m) == Stake(s.book, m) - if m == caller then amount else 0
  {
    TransferMoves(s.token, self, caller, amount);
    WithFreeOwed(s.book, caller, Get(s.book.free, caller) - amount);
  }

  lemma LockEffect(b: Records, caller: Address, id: Hash, maker: Address, amount: nat, m: Address)
    requires LockBond(b, caller, id, maker, amount).Ok?
    ensures var c := LockBond(b, caller, id, maker, amount).value;
            Owed(c) == Owed(b) - ActiveAmount(b, id) && Stake(c, m) == Stake(b, m) - Share(b, id, m)
  {
    var freed := WithFree(b, maker, Get(b.free, maker) - amount);
    WithFreeOwed(b, maker, Get(b.free, maker) - amount);
    RecordedOwed(freed, id, LockedBond(maker, amount, true));
    RecordedStake(freed, id, LockedBond(maker, amount, true), m);
  }

  lemma ReleaseEffect(b: Records, caller: Address, id: Hash, m: Address)
    requires ReleaseBond(b, caller, id).Ok?
    ensures var c := ReleaseBond(b, caller, id).value; Owed(c) == Owed(b) && Stake(c, m) == Stake(b, m)
  {
    ReturnEffect(b, id, m);
  }

  /** A bond deactivated and given back leaves everything owed as it was. */
  lemma ReturnEffect(b: Records, id: Hash, m: Address)
    requires Active(b, id)
    ensures var lb := b.bonds[id];
            var c := WithFree(Deactivated(b, id), lb.maker, Get(b.free, lb.maker) + lb.amount);
            Owed(c) == Owed(b) && Stake(c, m) == Stake(b, m)
  {
    var lb := b.bonds[id];
    DeactivatedOwed(b, id);
    WithFreeOwed(Deactivated(b, id), lb.maker, Get(b.free, lb.maker) + lb.amount);
  }

  lemma SlashEffect(s: Vault, self: Address, caller: Address, id: Hash, to: Address, m: Address)
    requires SlashBond(s, self, caller, id, to).Ok?
    ensures var t := SlashBond(s, self, caller, id, to).value;
            Stranded(t, self) == Stranded(s, self) + (if to == self then ActiveAmount(s.book, id) else 0) &&
            Stake(t.book, m) == Stake(s.book, m) - Share(s.book, id, m)
  {
    TransferMoves(s.token, self, to, s.book.bonds[id].amount);
    DeactivatedOwed(s.book, id);
  }

  lemma SendEffect(s: Vault, self: Address, from: Address, to: Address, amount: nat)
    requires from != self && Transfer(s.token, from, to, amount).Ok?
    ensures Stranded(s.(token := Transfer(s.token, from, to, amount).value), self) ==
            Stranded(s, self) + if to == self then amount else 0
  {
    TransferMoves(s.token, from, to, amount);
  }

  /** One step: the stranded amount and a maker's stake move by exactly what the step says. */
  lemma StepConserves(s: Vault, self: Address, step: Step, m: Address)
    ensures Stranded(Next(s, self, step), self) == Stranded(s, self) + Strands(s, self, step)
    ensures Stake(Next(s, self, step).book, m) == Stake(s.book, m) + Flow(s, self, m, step)
  {
    if Succeeds(s, self, step) {
      match step
      case Deposit(caller, amount, approved) => DepositEffect(s, self, caller, amount, m);
      case Withdraw(caller, amount) => WithdrawEffect(s, self, caller, amount, m);
      case Lock(caller, id, maker, amount) => LockEffect(s.book, caller, id, maker, amount, m);
      case Release(caller, id) => ReleaseEffect(s.book, caller, id, m);
      case Slash(caller, id, to) => SlashEffect(s, self, caller, id, to, m);
      case Bind(_, _) =>
      case Send(from, to, amount) => SendEffect(s, self, from, to, amount);
    }
  }

  function Exec(start: Vault, self: Address, steps: seq<Step>): Vault {
    if steps == [] then start else Next(Exec(start, self, steps[..|steps| - 1]), self, steps[|steps| - 1])
  }

  function TotalStranded(start: Vault, self: Address, steps: seq<Step>): nat {
    if steps == [] then 0
    else
      var before := steps[..|steps| - 1];
      TotalStranded(start, self, before) + Strands(Exec(start, self, before), self, steps[|steps| - 1])
  }

  function TotalFlow(start: Vault, self: Address, maker: Address, steps: seq<Step>): int {
    if steps == [] then 0
    else
      var before := steps[..|steps| - 1];
      TotalFlow(start, self, maker, before) + Flow(Exec(start, self, before), self, maker, steps[|steps| - 1])
  }

  /** A ledger just deployed: no bond anywhere; tokens may already have been sent to its address. */
  ghost predicate Deployed(s: Vault) {
    s.book.free == map[] && s.book.bonds == map[]
  }

  lemma DeployedOwesNothing(s: Vault)
    requires Deployed(s)
    ensures Owed(s.book) == 0 && forall m :: Stake(s.book, m) == 0
  {
    assert ActiveAmounts(s.book.bonds) == map[];
    forall m
      ensures ActiveOf(s.book.bonds, m) == map[]
    {
    }
  }

  /**
   Conservation, over every run and any escrow: the ledger's balance is what it owes its makers plus
   exactly what the run stranded.
   */
  lemma {:induction false} BalanceIsOwedPlusStranded(start: Vault, self: Address, steps: seq<Step>)
    requires Deployed(start)
    ensures var s := Exec(start, self, steps);
            Get(s.token, self) == Owed(s.book) + Get(start.token, self) + TotalStranded(start, self, steps)
  {
    if steps == [] {
      DeployedOwesNothing(start);
    } else {
      var before := steps[..|steps| - 1];
      BalanceIsOwedPlusStranded(start, self, before);
      StepConserves(Exec(start, self, before), self, steps[|steps| - 1], self);
    }
  }

  /** Solvency always; equality exactly when nothing was ever donated, locked over, or slashed to the ledger. */
  lemma SolventAndExactly(start: Vault, self: Address, steps: seq<Step>)
    requires Deployed(start)
    ensures var s := Exec(start, self, steps);
            Get(s.token, self) >= Owed(s.book) &&
            (Get(s.token, self) == Owed(s.book) <==>
             Get(start.token, self) == 0 && TotalStranded(start, self, steps) == 0)
  {
    BalanceIsOwedPlusStranded(start, self, steps);
  }

  /** Per maker: free plus active bond is deposits less withdrawals, slashes and bonds locked over. */
  lemma {:induction false} StakeIsNetFlow(start: Vault, self: Address, maker: Address, steps: seq<Step>)
    requires Deployed(start)
    ensures Stake(Exec(start, self, steps).book, maker) == TotalFlow(start, self, maker, steps)
  {
    if steps == [] {
      DeployedOwesNothing(start);
    } else {
      var before := steps[..|steps| - 1];
      StakeIsNetFlow(start, self, maker, before);
      StepConserves(Exec(start, self, before), self, steps[|steps| - 1], maker);
    }
  }

  // ---- each lock ends at most once ----

  /** How a step counts for one id: locks made, ends (release or slash), and active bonds locked over. */
  function Counts(s: Vault, self: Address, id: Hash, step: Step): (nat, nat, nat) {
    if !Succeeds(s, self, step) then (0, 0, 0)
    else
      match step
      case Lock(_, i, _, _) => if i == id then (1, 0, if Active(s.book, id) then 1 else 0) else (0, 0, 0)
      case Release(_, i) => if i == id then (0, 1, 0) else (0, 0, 0)
      case Slash(_, i, _) => if i == id then (0, 1, 0) else (0, 0, 0)
      case _ => (0, 0, 0)
  }

  function TotalCounts(start: Vault, self: Address, id: Hash, steps: seq<Step>): (nat, nat, nat) {
    if steps == [] then (0, 0, 0)
    else
      var before := steps[..|steps| - 1];
      var sum, last := TotalCounts(start, self, id, before),
                       Counts(Exec(start, self, before), self, id, steps[|steps| - 1]);
      (sum.0 + last.0, sum.1 + last.1, sum.2 + last.2)
  }

  lemma CountsStep(s: Vault, self: Address, id: Hash, step: Step)
    ensures var (locks, ends, over) := Counts(s, self, id, step);
            var was, after := (if Active(s.book, id) then 1 else 0), (if Active(Next(s, self, step).book, id) then 1 else 0);
            was + locks == ends + over + after
  {
  }

  /** Every lock of an id has ended once, was locked over, or is still active: never two of these. */
  lemma {:induction false} EachLockEndsAtMostOnce(start: Vault, self: Address, id: Hash, steps: seq<Step>)
    requires Deployed(start)
    ensures var (locks, ends, over) := TotalCounts(start, self, id, steps);
            locks == ends + over + if Active(Exec(start, self, steps).book, id) then 1 else 0
  {
    if steps != [] {
      EachLockEndsAtMostOnce(start, self, id, steps[..|steps| - 1]);
      CountsStep(Exec(start, self, steps[..|steps| - 1]), self, id, steps[|steps| - 1]);
    }
  }

  // ---- who may do what ----

  /** A step by which the owner names an escrow. */
  predicate Names(owner: Address, step: Step) {
    step.Bind? && step.caller == owner && step.e != ZeroAddress()
  }

  /** Step k is the first by which the owner names an escrow. */
  ghost predicate FirstNamed(owner: Address, steps: seq<Step>, k: int) {
    0 <= k < |steps| && Names(owner, steps[k]) && forall j :: 0 <= j < k ==> !Names(owner, steps[j])
  }

  lemma BindingStep(s: Vault, self: Address, step: Step)
    ensures var t := Next(s, self, step);
            t.book.owner == s.book.owner &&
            t.book.escrow == if s.book.escrow == ZeroAddress() && Names(s.book.owner, step) then step.e else s.book.escrow
  {
  }

  /** Over every run the escrow is the first non-zero address its owner named, for good; until then there is none. */
  lemma {:induction false} EscrowIsTheFirstNamed(start: Vault, self: Address, steps: seq<Step>)
    requires start.book.escrow == ZeroAddress()
    ensures Exec(start, self, steps).book.owner == start.book.owner
    ensures forall k :: FirstNamed(start.book.owner, steps, k) ==> Exec(start, self, steps).book.escrow == steps[k].e
    ensures (forall step | step in steps :: !Names(start.book.owner, step)) ==>
              Exec(start, self, steps).book.escrow == ZeroAddress()
  {
    if steps != [] {
      var before, last := steps[..|steps| - 1], |steps| - 1;
      EscrowIsTheFirstNamed(start, self, before);
      BindingStep(Exec(start, self, before), self, steps[last]);
      forall k | FirstNamed(start.book.owner, steps, k)
        ensures Exec(start, self, steps).book.escrow == steps[k].e
      {
        if k < last {
          assert FirstNamed(start.book.owner, before, k);
        } else {
          assert forall step | step in before :: !Names(start.book.owner, step);
        }
      }
    }
  }

  /** No one but the escrow touches a bond, and a maker's free bond falls only by his own withdrawal or the escrow's lock on him. */
  lemma OnlyTheEscrowTouchesBonds(s: Vault, self: Address, step: Step, maker: Address)
    ensures var t := Next(s, self, step);
            (t.book.bonds != s.book.bonds ==> (step.Lock? || step.Release? || step.Slash?) && step.caller == s.book.escrow) &&
            (Get(t.book.free, maker) < Get(s.book.free, maker) ==>
               (step.Withdraw? && step.caller == maker) ||
               (step.Lock? && step.caller == s.book.escrow && step.maker == maker))
  {
  }

  /** Exactly when the escrow's three calls go through, while the token supply fits 256 bits. */
  lemma BondCallsExactly(s: Vault, self: Address, caller: Address, id: Hash, who: Address, amount: nat)
    requires Sum(s.token) < TWO256
    ensures LockBond(s.book, caller, id, who, amount).Ok? <==>
            caller == s.book.escrow && amount <= Get(s.book.free, who) && amount < TWO128
    ensures ReleaseBond(s.book, caller, id).Ok? <==>
            caller == s.book.escrow && id in s.book.bonds && s.book.bonds[id].active &&
            Get(s.book.free, s.book.bonds[id].maker) + s.book.bonds[id].amount < TWO256
    ensures SlashBond(s, self, caller, id, who).Ok? <==>
            caller == s.book.escrow && id in s.book.bonds && s.book.bonds[id].active &&
            s.book.bonds[id].amount <= Get(s.token, self)
  {
    if id in s.book.bonds && s.book.bonds[id].amount <= Get(s.token, self) {
      TransferSucceeds(s.token, self, who, s.book.bonds[id].amount);
    }
  }
}
