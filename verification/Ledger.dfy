/** The maker bond ledger over an ERC-20 token (contracts/src/BondLedger.sol). */
module Ledger {
  import opened Bytes
  import opened Results
  import opened Sums

  type Amounts = map<Address, nat>

  function ZeroAddress(): Address { Zeros(20) }

  datatype Revert =
    | NotEscrow | NotOwner | EscrowAlreadySet | InsufficientFreeBond(need: nat, have: nat) | BondNotActive
    | AddressIsZero | TransferFailed | AmountOverflow | Panic

  // ---- the token ----

  function Transfer(token: Amounts, from: Address, to: Address, amount: nat): Result<Amounts, Revert> {
    if Get(token, from) < amount then Err(TransferFailed)
    else
      var taken: Amounts := token[from := Get(token, from) - amount];
      if Get(taken, to) + amount >= TWO256 then Err(Panic)
      else
        var given: Amounts := taken[to := Get(taken, to) + amount];
        Ok(given)
  }

  lemma TransferMoves(token: Amounts, from: Address, to: Address, amount: nat)
    requires Transfer(token, from, to, amount).Ok?
    ensures var t := Transfer(token, from, to, amount).value;
            Sum(t) == Sum(token) &&
            (from != to ==> Get(t, from) == Get(token, from) - amount && Get(t, to) == Get(token, to) + amount) &&
            (from == to ==> Get(t, from) == Get(token, from)) &&
            forall a | a != from && a != to :: Get(t, a) == Get(token, a)
  {
    SumSet(token, from, Get(token, from) - amount);
    var taken: Amounts := token[from := Get(token, from) - amount];
    SumSet(taken, to, Get(taken, to) + amount);
  }

  /** While the supply is below 2^256 only a short balance stops a transfer. */
  lemma TransferSucceeds(token: Amounts, from: Address, to: Address, amount: nat)
    requires Sum(token) < TWO256 && Get(token, from) >= amount
    ensures Transfer(token, from, to, amount).Ok?
  {
    var taken: Amounts := token[from := Get(token, from) - amount];
    SumSet(token, from, Get(token, from) - amount);
    SumSet(taken, to, Get(taken, to) + amount);
  }

  class Fxrp {
    var balances: Amounts

    constructor (balances: Amounts)
      ensures this.balances == balances
    {
      this.balances := balances;
    }

    method Move(from: Address, to: Address, amount: nat) returns (r: Option<Revert>)
      modifies this
      ensures match Transfer(old(balances), from, to, amount)
              case Err(e) => r == Some(e) && balances == old(balances)
              case Ok(t) => r == None && balances == t
    {
      var have := Get(balances, from);
      if have < amount {
        return Some(TransferFailed);
      }
      var moved: Amounts := balances[from := have - amount];
      if Get(moved, to) + amount >= TWO256 {
        return Some(Panic);
      }
      moved := moved[to := Get(moved, to) + amount];
      balances := moved;
      return None;
    }
  }

  // ---- the ledger ----

  datatype LockedBond = LockedBond(maker: Address, amount: nat, active: bool)

  datatype Records = Records(free: Amounts, bonds: map<Hash, LockedBond>, owner: Address, escrow: Address)

  /** The ledger and the token it holds, at its own address. */
  datatype Vault = Vault(token: Amounts, book: Records)

  function WithFree(b: Records, who: Address, amount: nat): Records {
    var free: Amounts := b.free[who := amount];
    b.(free := free)
  }

  function DepositBond(s: Vault, self: Address, caller: Address, amount: nat, approved: bool): Result<Vault, Revert> {
    if Get(s.book.free, caller) + amount >= TWO256 then Err(Panic)
    else if !approved then Err(TransferFailed)
    else
      match Transfer(s.token, caller, self, amount)
      case Err(e) => Err(e)
      case Ok(t) => Ok(Vault(t, WithFree(s.book, caller, Get(s.book.free, caller) + amount)))
  }

  function WithdrawBond(s: Vault, self: Address, caller: Address, amount: nat): Result<Vault, Revert> {
    var have := Get(s.book.free, caller);
    if amount > have then Err(InsufficientFreeBond(amount, have))
    else
      match Transfer(s.token, self, caller, amount)
      case Err(e) => Err(e)
      case Ok(t) => Ok(Vault(t, WithFree(s.book, caller, have - amount)))
  }

  function LockBond(b: Records, caller: Address, id: Hash, maker: Address, amount: nat): Result<Records, Revert> {
    var have := Get(b.free, maker);
    if caller != b.escrow then Err(NotEscrow)
    else if amount > have then Err(InsufficientFreeBond(amount, have))
    else if amount >= TWO128 then Err(AmountOverflow)
    else Ok(WithFree(b, maker, have - amount).(bonds := b.bonds[id := LockedBond(maker, amount, true)]))
  }

  predicate Active(b: Records, id: Hash) {
    id in b.bonds && b.bonds[id].active
  }

  function Deactivated(b: Records, id: Hash): Records
    requires Active(b, id)
  {
    b.(bonds := b.bonds[id := b.bonds[id].(active := false)])
  }

  function ReleaseBond(b: Records, caller: Address, id: Hash): Result<Records, Revert> {
    if caller != b.escrow then Err(NotEscrow)
    else if !Active(b, id) then Err(BondNotActive)
    else
      var lb := b.bonds[id];
      if Get(b.free, lb.maker) + lb.amount >= TWO256 then Err(Panic)
      else Ok(WithFree(Deactivated(b, id), lb.maker, Get(b.free, lb.maker) + lb.amount))
  }

  function SlashBond(s: Vault, self: Address, caller: Address, id: Hash, to: Address): Result<Vault, Revert> {
    if caller != s.book.escrow then Err(NotEscrow)
    else if !Active(s.book, id) then Err(BondNotActive)
    else
      match Transfer(s.token, self, to, s.book.bonds[id].amount)
      case Err(e) => Err(e)
      case Ok(t) => Ok(Vault(t, Deactivated(s.book, id)))
  }

  function SetEscrow(b: Records, caller: Address, e: Address): Result<Records, Revert> {
    if caller != b.owner then Err(NotOwner)
    else if b.escrow != ZeroAddress() then Err(EscrowAlreadySet)
    else if e == ZeroAddress() then Err(AddressIsZero)
    else Ok(b.(escrow := e))
  }

  /** The contract: each method updates the mappings as the source does; a revert rolls them back. */
  class BondLedger {
    const self: Address
    const token: Fxrp
    const owner: Address
    var escrow: Address
    var freeBond: Amounts
    var lockedBonds: map<Hash, LockedBond>

    function Entries(): Records
      reads this
    {
      Records(freeBond, lockedBonds, owner, escrow)
    }

    function Contents(): Vault
      reads this, token
    {
      Vault(token.balances, Entries())
    }

    constructor (self: Address, token: Fxrp, deployer: Address)
      ensures this.self == self && this.token == token
      ensures Entries() == Records(map[], map[], deployer, ZeroAddress())
    {
      this.self, this.token, this.owner, this.escrow := self, token, deployer, ZeroAddress();
      this.freeBond, this.lockedBonds := map[], map[];
    }

    method Deposit(caller: Address, amount: nat, approved: bool) returns (r: Option<Revert>)
      modifies this, token
      ensures match DepositBond(old(Contents()), self, caller, amount, approved)
              case Err(e) => r == Some(e) && Contents() == old(Contents())
              case Ok(s) => r == None && Contents() == s
    {
      var before := freeBond;
      if Get(freeBond, caller) + amount >= TWO256 {
        return Some(Panic);
      }
      freeBond := freeBond[caller := Get(freeBond, caller) + amount];
      r := Some(TransferFailed);
      if approved {
        r := token.Move(caller, self, amount);
      }
      if r.Some? {
        freeBond := before;
      }
    }

    method Withdraw(caller: Address, amount: nat) returns (r: Option<Revert>)
      modifies this, token
      ensures match WithdrawBond(old(Contents()), self, caller, amount)
              case Err(e) => r == Some(e) && Contents() == old(Contents())
              case Ok(s) => r == None && Contents() == s
    {
      var before := freeBond;
      var have := Get(freeBond, caller);
      if amount > have {
        return Some(InsufficientFreeBond(amount, have));
      }
      freeBond := freeBond[caller := have - amount];
      r := token.Move(self, caller, amount);
      if r.Some? {
        freeBond := before;
      }
    }

    method Lock(caller: Address, id: Hash, maker: Address, amount: nat) returns (r: Option<Revert>)
      modifies this
      ensures match LockBond(old(Entries()), caller, id, maker, amount)
              case Err(e) => r == Some(e) && Entries() == old(Entries())
              case Ok(b) => r == None && Entries() == b
    {
      if caller != escrow {
        return Some(NotEscrow);
      }
      var have := Get(freeBond, maker);
      if amount > have {
        return Some(InsufficientFreeBond(amount, have));
      }
      if amount >= TWO128 {
        return Some(AmountOverflow);
      }
      freeBond := freeBond[maker := have - amount];
      lockedBonds := lockedBonds[id := LockedBond(maker, amount, true)];
      return None;
    }

    method Release(caller: Address, id: Hash) returns (r: Option<Revert>)
      modifies this
      ensures match ReleaseBond(old(Entries()), caller, id)
              case Err(e) => r == Some(e) && Entries() == old(Entries())
              case Ok(b) => r == None && Entries() == b
    {
      if caller != escrow {
        return Some(NotEscrow);
      }
      if id !in lockedBonds || !lockedBonds[id].active {
        return Some(BondNotActive);
      }
      var before := lockedBonds;
      var lb := lockedBonds[id];
      lockedBonds := lockedBonds[id := lb.(active := false)];
      if Get(freeBond, lb.maker) + lb.amount >= TWO256 {
        lockedBonds := before;
        return Some(Panic);
      }
      freeBond := freeBond[lb.maker := Get(freeBond, lb.maker) + lb.amount];
      return None;
    }

    method Slash(caller: Address, id: Hash, to: Address) returns (r: Option<Revert>)
      modifies this, token
      ensures match SlashBond(old(Contents()), self, caller, id, to)
              case Err(e) => r == Some(e) && Contents() == old(Contents())
              case Ok(s) => r == None && Contents() == s
    {
      if caller != escrow {
        return Some(NotEscrow);
      }
      if id !in lockedBonds || !lockedBonds[id].active {
        return Some(BondNotActive);
      }
      var before := lockedBonds;
      lockedBonds := lockedBonds[id := lockedBonds[id].(active := false)];
      r := token.Move(self, to, lockedBonds[id].amount);
      if r.Some? {
        lockedBonds := before;
      }
    }

    method BindEscrow(caller: Address, e: Address) returns (r: Option<Revert>)
      modifies this
      ensures match SetEscrow(old(Entries()), caller, e)
              case Err(err) => r == Some(err) && Entries() == old(Entries())
              case Ok(b) => r == None && Entries() == b
    {
      if caller != owner {
        return Some(NotOwner);
      }
      if escrow != ZeroAddress() {
        return Some(EscrowAlreadySet);
      }
      if e == ZeroAddress() {
        return Some(AddressIsZero);
      }
      escrow := e;
      return None;
    }
  }
}
