/** What each account holds after every run, and exactly when each call on the contracts goes through. */
module Accounts {
  import opened Bytes
  import opened Results
  import opened Sums
  import opened Abi
  import opened Escrow
  import opened Settlement
  import opened Custody
  import L = Ledger
  import M = Matching
  import P = Payments
  import Signing

  /** A change of an address' tokens, its armed balance in the escrow and its free bond in the ledger. */
  datatype Change = Change(wallet: int, armed: int, free: int)

  function Plus(x: Change, y: Change): Change {
    Change(x.wallet + y.wallet, x.armed + y.armed, x.free + y.free)
  }

  /** From w to v the account of a changed by exactly this much. */
  predicate Changes(w: World, v: World, a: Address, d: Change) {
    Get(v.vault.token, a) == Get(w.vault.token, a) + d.wallet &&
    BalanceOf(v, a).armed == BalanceOf(w, a).armed + d.armed &&
    Get(v.vault.book.free, a) == Get(w.vault.book.free, a) + d.free
  }

  /** The negation of an amount. */
  function Out(amount: nat): int { 0 - amount }

  const NOTHING: Change := Change(0, 0, 0)

  /** What the maker gains and the taker loses when a match is paid for. */
  function Delivered(m: Match, a: Address): Change {
    Change(if a == m.maker then m.amount else 0, if a == m.taker then Out(m.amount) else 0, if a == m.maker then m.bond else 0)
  }

  /** What a step moves on the account of a. */
  function Moved(cfg: Config, crypto: Crypto, w: World, step: Step, a: Address): Change {
    if !Succeeds(cfg, crypto, w, step) then NOTHING
    else
      match step
      case TakerDeposit(caller, amount, _, _) => if a == caller then Change(Out(amount), amount, 0) else NOTHING
      case TakerWithdraw(caller, amount, _) => if a == caller then Change(amount, Out(amount), 0) else NOTHING
      case LockMatch(data, _, _) =>
        var mi := DecodeInstruction(data).value;
        if a == mi.maker then Change(0, 0, Out(mi.amount / 100)) else NOTHING
      case ReleaseMatch(id, _) => Delivered(w.matches[id], a)
      case RefundMatch(id, _) =>
        var m := w.matches[id];
        if a == m.taker then Change(m.amount + m.bond, Out(m.amount), 0) else NOTHING
      case BondDeposit(caller, amount, _) => if a == caller then Change(Out(amount), 0, amount) else NOTHING
      case BondWithdraw(caller, amount) => if a == caller then Change(amount, 0, Out(amount)) else NOTHING
      case Send(from, to, amount) =>
        Change((if a == from then Out(amount) else 0) + if a == to then amount else 0, 0, 0)
      case Admin(_, _) => NOTHING
  }

  function History(cfg: Config, crypto: Crypto, start: World, steps: seq<Step>, a: Address): Change {
    if steps == [] then NOTHING
    else
      var before := steps[..|steps| - 1];
      Plus(History(cfg, crypto, start, before, a),
           Moved(cfg, crypto, Exec(cfg, crypto, start, before), steps[|steps| - 1], a))
  }

  // ---- each call moves what it names, on every account outside the contracts ----

  lemma DepositMoves(cfg: Config, w: World, caller: Address, amount: nat, armedUntil: Uint64, a: Address)
    requires Outside(cfg, caller) && Outside(cfg, a) && Deposit(cfg, w, caller, amount, armedUntil, true).Ok?
    ensures Changes(w, Deposit(cfg, w, caller, amount, armedUntil, true).value, a,
                    if a == caller then Change(Out(amount), amount, 0) else NOTHING)
  {
    L.TransferMoves(w.vault.token, caller, cfg.self, amount);
  }

  lemma WithdrawMoves(cfg: Config, w: World, caller: Address, amount: nat, now: nat, a: Address)
    requires Outside(cfg, caller) && Outside(cfg, a) && Withdraw(cfg, w, caller, amount, now).Ok?
    ensures Changes(w, Withdraw(cfg, w, caller, amount, now).value, a,
                    if a == caller then Change(amount, Out(amount), 0) else NOTHING)
  {
    L.TransferMoves(w.vault.token, cfg.self, caller, amount);
  }

  lemma LockMovesBond(cfg: Config, w: World, data: seq<Byte>, signature: seq<Byte>, x: LockContext, crypto: Crypto, a: Address)
    requires Lock(cfg, w, data, signature, x, crypto).Ok?
    ensures var mi := DecodeInstruction(data).value;
            Changes(w, Lock(cfg, w, data, signature, x, crypto).value, a,
                    if a == mi.maker then Change(0, 0, Out(mi.amount / 100)) else NOTHING)
  {
  }

  lemma ClosedMoves(w: World, id: Hash, stage: Stage, a: Address)
    requires id in w.matches && Closed(w, id, stage).Ok?
    ensures Closed(w, id, stage).value.vault == w.vault
    ensures Changes(w, Closed(w, id, stage).value, a,
                    if a == w.matches[id].taker then Change(0, Out(w.matches[id].amount), 0) else NOTHING)
  {
  }

  lemma BondReturns(b: L.Records, caller: Address, id: Hash, a: Address)
    requires L.ReleaseBond(b, caller, id).Ok?
    ensures L.Active(b, id)
    ensures Get(L.ReleaseBond(b, caller, id).value.free, a) ==
            Get(b.free, a) + if a == b.bonds[id].maker then b.bonds[id].amount else 0
  {
  }

  lemma ReleaseDelivers(cfg: Config, w: World, id: Hash, p: Proof, a: Address)
    requires Paired(w) && Outside(cfg, a) && Release(cfg, w, id, p).Ok?
    ensures Changes(w, Release(cfg, w, id, p).value, a, Delivered(w.matches[id], a))
  {
    var m := w.matches[id];
    var c := Closed(w, id, Released).value;
    ClosedMoves(w, id, Released, a);
    BondReturns(w.vault.book, cfg.self, id, a);
    assert IsLocked(w, id);
    var d := c.(vault := c.vault.(book := L.ReleaseBond(c.vault.book, cfg.self, id).value), usedTx := c.usedTx + {p.txId});
    PayEffect(cfg, d, cfg.self, m.maker, m.amount);
    assert BalanceOf(Release(cfg, w, id, p).value, a) == BalanceOf(c, a);
  }

  lemma RefundReturns(cfg: Config, w: World, id: Hash, now: nat, a: Address)
    requires Paired(w) && Outside(cfg, a) && Refund(cfg, w, id, now).Ok?
    ensures var m := w.matches[id];
            Changes(w, Refund(cfg, w, id, now).value, a,
                    if a == m.taker then Change(m.amount + m.bond, Out(m.amount), 0) else NOTHING)
  {
    var m := w.matches[id];
    assert IsLocked(w, id) && L.Active(w.vault.book, id);
    L.TransferMoves(w.vault.token, cfg.ledger, m.taker, m.bond);
    var slashed := L.Transfer(w.vault.token, cfg.ledger, m.taker, m.bond).value;
    L.TransferMoves(slashed, cfg.self, m.taker, m.amount);
  }

  lemma BondDepositMoves(cfg: Config, w: World, caller: Address, amount: nat, a: Address)
    requires Outside(cfg, caller) && Outside(cfg, a) && L.DepositBond(w.vault, cfg.ledger, caller, amount, true).Ok?
    ensures Changes(w, w.(vault := L.DepositBond(w.vault, cfg.ledger, caller, amount, true).value), a,
                    if a == caller then Change(Out(amount), 0, amount) else NOTHING)
  {
    L.TransferMoves(w.vault.token, caller, cfg.ledger, amount);
  }

  lemma BondWithdrawMoves(cfg: Config, w: World, caller: Address, amount: nat, a: Address)
    requires Outside(cfg, caller) && Outside(cfg, a) && L.WithdrawBond(w.vault, cfg.ledger, caller, amount).Ok?
    ensures Changes(w, w.(vault := L.WithdrawBond(w.vault, cfg.ledger, caller, amount).value), a,
                    if a == caller then Change(amount, 0, Out(amount)) else NOTHING)
  {
    L.TransferMoves(w.vault.token, cfg.ledger, caller, amount);
  }

  lemma SendMoves(cfg: Config, w: World, from: Address, to: Address, amount: nat, a: Address)
    requires Pay(w, from, to, amount).Ok?
    ensures Changes(w, Pay(w, from, to, amount).value, a,
                    Change((if a == from then Out(amount) else 0) + if a == to then amount else 0, 0, 0))
  {
    L.TransferMoves(w.vault.token, from, to, amount);
  }

  lemma StepMoves(cfg: Config, crypto: Crypto, w: World, step: Step, a: Address)
    requires Paired(w) && Outside(cfg, a)
    ensures Changes(w, Next(cfg, crypto, w, step), a, Moved(cfg, crypto, w, step, a))
  {
    if Succeeds(cfg, crypto, w, step) {
      match step
      case TakerDeposit(caller, amount, armedUntil, _) => DepositMoves(cfg, w, caller, amount, armedUntil, a);
      case TakerWithdraw(caller, amount, now) => WithdrawMoves(cfg, w, caller, amount, now, a);
      case LockMatch(data, signature, x) => LockMovesBond(cfg, w, data, signature, x, crypto, a);
      case ReleaseMatch(id, proof) => ReleaseDelivers(cfg, w, id, proof, a);
      case RefundMatch(id, now) => RefundReturns(cfg, w, id, now, a);
      case BondDeposit(caller, amount, _) => BondDepositMoves(cfg, w, caller, amount, a);
      case BondWithdraw(caller, amount) => BondWithdrawMoves(cfg, w, caller, amount, a);
      case Send(from, to, amount) => SendMoves(cfg, w, from, to, amount, a);
      case Admin(_, _) =>
    }
  }

  /**
   After every run an account outside the two contracts holds what it started with and what its own
   calls and the ends of its own matches moved; no other step touches it.
   */
  lemma {:induction false} EveryAccountIsItsHistory(cfg: Config, crypto: Crypto, start: World, steps: seq<Step>, a: Address)
    requires Deployed(cfg, start) && Outside(cfg, a)
    ensures BalanceOf(start, a).armed == Get(start.vault.book.free, a) == 0
    ensures Changes(start, Exec(cfg, crypto, start, steps), a, History(cfg, crypto, start, steps, a))
  {
    if steps != [] {
      var before := steps[..|steps| - 1];
      EveryAccountIsItsHistory(cfg, crypto, start, before, a);
      EveryTokenIsAccountedFor(cfg, crypto, start, before);
      StepMoves(cfg, crypto, Exec(cfg, crypto, start, before), steps[|steps| - 1], a);
    }
  }

  // ---- how long a taker is armed ----

  /** Step k of the run was a deposit of the taker t. */
  predicate ArmedAt(cfg: Config, crypto: Crypto, start: World, steps: seq<Step>, k: int, t: Address) {
    P.Happened(cfg, crypto, start, steps, k) && steps[k].TakerDeposit? && steps[k].caller == t
  }

  /** The latest deadline any of the run's deposits gave t. */
  ghost predicate Latest(cfg: Config, crypto: Crypto, start: World, steps: seq<Step>, t: Address, until: Uint64) {
    (forall k | ArmedAt(cfg, crypto, start, steps, k, t) :: steps[k].armedUntil <= until) &&
    (until == 0 || exists k :: ArmedAt(cfg, crypto, start, steps, k, t) && steps[k].armedUntil == until)
  }

  lemma ArmingStep(cfg: Config, crypto: Crypto, w: World, step: Step, t: Address)
    ensures var was := BalanceOf(w, t).armedUntil;
            BalanceOf(Next(cfg, crypto, w, step), t).armedUntil ==
            if step.TakerDeposit? && step.caller == t && Succeeds(cfg, crypto, w, step) && step.armedUntil > was
            then step.armedUntil else was
  {
  }

  lemma LatestGrows(cfg: Config, crypto: Crypto, start: World, steps: seq<Step>, t: Address, was: Uint64, until: Uint64)
    requires steps != [] && Latest(cfg, crypto, start, steps[..|steps| - 1], t, was)
    requires var last := |steps| - 1;
             until == if ArmedAt(cfg, crypto, start, steps, last, t) && steps[last].armedUntil > was
                      then steps[last].armedUntil else was
    ensures Latest(cfg, crypto, start, steps, t, until)
  {
    var before := steps[..|steps| - 1];
    forall k | 0 <= k < |steps| - 1
      ensures ArmedAt(cfg, crypto, start, before, k, t) <==> ArmedAt(cfg, crypto, start, steps, k, t)
    {
      P.HappenedBefore(cfg, crypto, start, steps, k);
    }
  }

  /** Over every run a taker stays armed until the latest deadline of his deposits: nothing shortens it. */
  lemma {:induction false} ArmedUntilTheLatest(cfg: Config, crypto: Crypto, start: World, steps: seq<Step>, t: Address)
    requires Deployed(cfg, start)
    ensures Latest(cfg, crypto, start, steps, t, BalanceOf(Exec(cfg, crypto, start, steps), t).armedUntil)
  {
    if steps != [] {
      var before := steps[..|steps| - 1];
      var w := Exec(cfg, crypto, start, before);
      ArmedUntilTheLatest(cfg, crypto, start, before, t);
      ArmingStep(cfg, crypto, w, steps[|steps| - 1], t);
      LatestGrows(cfg, crypto, start, steps, t, BalanceOf(w, t).armedUntil,
                  BalanceOf(Exec(cfg, crypto, start, steps), t).armedUntil);
    }
  }

  // ---- exactly when a lock goes through ----

  /** The signer the chain recovers from a signature: none unless it is 65 bytes, low in S, with V of 27 or 28. */
  predicate SignedBy(crypto: Crypto, digest: Hash, signature: seq<Byte>, signer: Address) {
    |signature| == 65 && FromBE(signature[32..64]) <= HALF_ORDER &&
    (signature[64] == 27 || signature[64] == 28) &&
    crypto.recover(digest, signature[..64] + [signature[64] - 27]) == Some(signer)
  }

  /** A signature the escrow takes is the registered signer's, over the digest of these bytes on this chain. */
  lemma SignatureExactly(cfg: Config, w: World, data: seq<Byte>, signature: seq<Byte>, crypto: Crypto)
    ensures SignatureFault(cfg, w, data, signature, crypto).None? <==>
            w.teeSigner != Zeros(20) && SignedBy(crypto, LockDigest(cfg, crypto.keccak, data), signature, w.teeSigner)
  {
    if |signature| == 65 && (signature[64] == 27 || signature[64] == 28) {
      assert Signing.ShiftDown(signature) == signature[..64] + [signature[64] - 27];
    }
  }

  /** What the chain must offer for the instruction mi: a fresh id, time, size, a live price in band, funds and a bond. */
  predicate Offers(cfg: Config, w: World, mi: Instruction, x: LockContext) {
    var b := BalanceOf(w, mi.taker);
    mi.matchId !in w.matches && x.now <= mi.expiresAt && mi.taker != mi.maker && mi.amount >= cfg.minBlock && mi.xrpl != [] &&
    x.feeCovered && x.surplusTaken && x.mid > 0 && 0 <= x.now - x.midTime <= 60 && M.InBand(mi.price, x.mid, 100) &&
    mi.price * 10_000 < TWO256 && x.mid * 10_100 < TWO256 && mi.amount * mi.price < TWO256 &&
    mi.amount * mi.price / x.mid < TWO128 &&
    x.now <= b.armedUntil && mi.amount <= b.armed - b.committed &&
    mi.amount / 100 <= Get(w.vault.book.free, mi.maker) && w.nextTag + 1 < TWO32
  }

  lemma PricedExactly(mi: Instruction, x: LockContext)
    requires mi.amount >= 0 && mi.price >= 0
    ensures Priced(mi, x).None? <==>
            x.feeCovered && x.mid > 0 && 0 <= x.now - x.midTime <= 60 && M.InBand(mi.price, x.mid, 100) &&
            mi.price * 10_000 < TWO256 && x.mid * 10_100 < TWO256 && mi.amount * mi.price < TWO256 &&
            mi.amount * mi.price / x.mid < TWO128
  {
  }

  lemma ReservedExactly(cfg: Config, w: World, mi: Instruction, x: LockContext, keccak: seq<Byte> -> Hash)
    requires Joint(cfg, w) && x.mid > 0 && mi.amount >= 0 && mi.price >= 0
    ensures Funded(w, mi, x.now).None? && Reserve(cfg, w, mi, x, keccak).Ok? <==>
            x.now <= BalanceOf(w, mi.taker).armedUntil &&
            mi.amount <= BalanceOf(w, mi.taker).armed - BalanceOf(w, mi.taker).committed &&
            mi.amount / 100 <= Get(w.vault.book.free, mi.maker) && w.nextTag + 1 < TWO32 && x.surplusTaken
  {
    assert CommittedFor(w, mi.taker);
  }

  /** A lock goes through exactly when these conditions hold, each in the words of the call, the chain and the accounts. */
  lemma LocksExactly(cfg: Config, w: World, data: seq<Byte>, signature: seq<Byte>, x: LockContext, crypto: Crypto)
    requires Joint(cfg, w)
    ensures Lock(cfg, w, data, signature, x, crypto).Ok? <==>
            !w.paused && DecodeInstruction(data).Some? && DecodeInstruction(data).value.escrow == cfg.self &&
            w.teeSigner != Zeros(20) && SignedBy(crypto, LockDigest(cfg, crypto.keccak, data), signature, w.teeSigner) &&
            Offers(cfg, w, DecodeInstruction(data).value, x)
  {
    SignatureExactly(cfg, w, data, signature, crypto);
    if DecodeInstruction(data).Some? {
      var mi := DecodeInstruction(data).value;
      PricedExactly(mi, x);
      if x.mid > 0 {
        ReservedExactly(cfg, w, mi, x, crypto.keccak);
      }
    }
  }

  // ---- exactly when the deposits go through ----

  /** A deposit goes through exactly when it is approved, held and fits: 128 bits armed in the escrow, anything in the ledger. */
  lemma DepositsExactly(cfg: Config, w: World, caller: Address, amount: nat, armedUntil: Uint64, approved: bool)
    requires Joint(cfg, w) && Outside(cfg, caller)
    ensures Deposit(cfg, w, caller, amount, armedUntil, approved).Ok? <==>
            approved && amount <= Get(w.vault.token, caller) && BalanceOf(w, caller).armed + amount < TWO128
    ensures L.DepositBond(w.vault, cfg.ledger, caller, amount, approved).Ok? <==>
            approved && amount <= Get(w.vault.token, caller)
  {
    SumDrop(w.vault.book.free, caller);
    SumDrop(w.vault.token, caller);
    SumDrop(w.vault.token - {caller}, cfg.ledger);
    if amount <= Get(w.vault.token, caller) {
      L.TransferSucceeds(w.vault.token, caller, cfg.self, amount);
      L.TransferSucceeds(w.vault.token, caller, cfg.ledger, amount);
    }
  }
}
