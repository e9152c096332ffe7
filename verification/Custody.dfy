/** What takers and makers can rely on, over every run of the settlement contracts. */
module Custody {
  import opened Bytes
  import opened Results
  import opened Sums
  import opened Abi
  import opened Escrow
  import opened Settlement
  import L = Ledger
  import C = Conservation

  datatype Step =
    | TakerDeposit(caller: Address, amount: nat, armedUntil: Uint64, approved: bool)
    | TakerWithdraw(caller: Address, amount: nat, now: nat)
    | LockMatch(data: seq<Byte>, signature: seq<Byte>, x: LockContext)
    | ReleaseMatch(id: Hash, proof: Proof)
    | RefundMatch(id: Hash, now: nat)
    | BondDeposit(caller: Address, amount: nat, approved: bool)
    | BondWithdraw(caller: Address, amount: nat)
    | Send(from: Address, to: Address, amount: nat)
    | Admin(teeSigner: Address, paused: bool)

  function LedgerStep(w: World, r: Result<L.Vault, L.Revert>): Result<World, Revert> {
    match r
    case Err(e) => Err(LedgerReverted(e))
    case Ok(v) => Ok(w.(vault := v))
  }

  function Try(cfg: Config, crypto: Crypto, w: World, step: Step): Result<World, Revert> {
    match step
    case TakerDeposit(caller, amount, armedUntil, approved) => Deposit(cfg, w, caller, amount, armedUntil, approved)
    case TakerWithdraw(caller, amount, now) => Withdraw(cfg, w, caller, amount, now)
    case LockMatch(data, signature, x) => Lock(cfg, w, data, signature, x, crypto)
    case ReleaseMatch(id, proof) => Release(cfg, w, id, proof)
    case RefundMatch(id, now) => Refund(cfg, w, id, now)
    case BondDeposit(caller, amount, approved) => LedgerStep(w, L.DepositBond(w.vault, cfg.ledger, caller, amount, approved))
    case BondWithdraw(caller, amount) => LedgerStep(w, L.WithdrawBond(w.vault, cfg.ledger, caller, amount))
    case Send(from, to, amount) => Pay(w, from, to, amount)
    case Admin(teeSigner, paused) => Ok(w.(teeSigner := teeSigner, paused := paused))
  }

  predicate Outside(cfg: Config, a: Address) {
    a != cfg.self && a != cfg.ledger
  }

  /** The two contracts make no calls of their own but those inside the operations. */
  predicate External(cfg: Config, step: Step) {
    match step
    case TakerDeposit(caller, _, _, _) => Outside(cfg, caller)
    case TakerWithdraw(caller, _, _) => Outside(cfg, caller)
    case BondDeposit(caller, _, _) => Outside(cfg, caller)
    case BondWithdraw(caller, _) => Outside(cfg, caller)
    case Send(from, _, _) => Outside(cfg, from)
    case _ => true
  }

  predicate Succeeds(cfg: Config, crypto: Crypto, w: World, step: Step) {
    External(cfg, step) && Try(cfg, crypto, w, step).Ok?
  }

  function Next(cfg: Config, crypto: Crypto, w: World, step: Step): World {
    if Succeeds(cfg, crypto, w, step) then Try(cfg, crypto, w, step).value else w
  }

  function Exec(cfg: Config, crypto: Crypto, start: World, steps: seq<Step>): World {
    if steps == [] then start
    else Next(cfg, crypto, Exec(cfg, crypto, start, steps[..|steps| - 1]), steps[|steps| - 1])
  }

  /** What a step gives the address at for nothing: a transfer in, or a payout that names it. */
  function Gift(cfg: Config, crypto: Crypto, w: World, step: Step, at: Address): nat {
    if !Succeeds(cfg, crypto, w, step) then 0
    else
      match step
      case Send(_, to, amount) => Kept(at, to, amount)
      case ReleaseMatch(id, _) => Kept(at, w.matches[id].maker, w.matches[id].amount)
      case RefundMatch(id, _) => Kept(at, w.matches[id].taker, w.matches[id].amount + w.matches[id].bond)
      case _ => 0
  }

  lemma BondStepKeeps(cfg: Config, w: World, v: World)
    requires Joint(cfg, w) && v == w.(vault := v.vault) && v.vault.book.bonds == w.vault.book.bonds
    requires v.vault.book.escrow == cfg.self && Sum(v.vault.token) < TWO256
    requires Get(v.vault.token, cfg.self) == Get(w.vault.token, cfg.self) && LedgerSlack(cfg, v) == LedgerSlack(cfg, w)
    ensures Joint(cfg, v) && EscrowSlack(cfg, v) == EscrowSlack(cfg, w)
  {
    CommittedLater(w, v);
    SamePairs(w, v);
  }

  lemma BondDepositKeeps(cfg: Config, w: World, caller: Address, amount: nat)
    requires Joint(cfg, w) && Outside(cfg, caller) && L.DepositBond(w.vault, cfg.ledger, caller, amount, true).Ok?
    ensures var v := w.(vault := L.DepositBond(w.vault, cfg.ledger, caller, amount, true).value);
            Joint(cfg, v) && EscrowSlack(cfg, v) == EscrowSlack(cfg, w) && LedgerSlack(cfg, v) == LedgerSlack(cfg, w)
  {
    L.TransferMoves(w.vault.token, caller, cfg.ledger, amount);
    C.DepositEffect(w.vault, cfg.ledger, caller, amount, caller);
    BondStepKeeps(cfg, w, w.(vault := L.DepositBond(w.vault, cfg.ledger, caller, amount, true).value));
  }

  lemma BondWithdrawKeeps(cfg: Config, w: World, caller: Address, amount: nat)
    requires Joint(cfg, w) && Outside(cfg, caller) && L.WithdrawBond(w.vault, cfg.ledger, caller, amount).Ok?
    ensures var v := w.(vault := L.WithdrawBond(w.vault, cfg.ledger, caller, amount).value);
            Joint(cfg, v) && EscrowSlack(cfg, v) == EscrowSlack(cfg, w) && LedgerSlack(cfg, v) == LedgerSlack(cfg, w)
  {
    L.TransferMoves(w.vault.token, cfg.ledger, caller, amount);
    C.WithdrawEffect(w.vault, cfg.ledger, caller, amount, caller);
    BondStepKeeps(cfg, w, w.(vault := L.WithdrawBond(w.vault, cfg.ledger, caller, amount).value));
  }

  lemma SendKeeps(cfg: Config, w: World, from: Address, to: Address, amount: nat)
    requires Joint(cfg, w) && Outside(cfg, from) && Pay(w, from, to, amount).Ok?
    ensures var v := Pay(w, from, to, amount).value;
            Joint(cfg, v) && EscrowSlack(cfg, v) == EscrowSlack(cfg, w) + Kept(cfg.self, to, amount) &&
            LedgerSlack(cfg, v) == LedgerSlack(cfg, w) + Kept(cfg.ledger, to, amount)
  {
    PayEffect(cfg, w, from, to, amount);
    var v := Pay(w, from, to, amount).value;
    CommittedLater(w, v);
    SamePairs(w, v);
  }

  lemma StepKeeps(cfg: Config, crypto: Crypto, w: World, step: Step)
    requires Joint(cfg, w)
    ensures var v := Next(cfg, crypto, w, step);
            Joint(cfg, v) && EscrowSlack(cfg, v) == EscrowSlack(cfg, w) + Gift(cfg, crypto, w, step, cfg.self) &&
            LedgerSlack(cfg, v) == LedgerSlack(cfg, w) + Gift(cfg, crypto, w, step, cfg.ledger)
  {
    if Succeeds(cfg, crypto, w, step) {
      match step
      case TakerDeposit(caller, amount, armedUntil, approved) =>
        DepositKeeps(cfg, w, caller, amount, armedUntil, approved);
      case TakerWithdraw(caller, amount, now) => WithdrawKeeps(cfg, w, caller, amount, now);
      case LockMatch(data, signature, x) => LockKeeps(cfg, w, data, signature, x, crypto);
      case ReleaseMatch(id, proof) => ReleaseKeeps(cfg, w, id, proof);
      case RefundMatch(id, now) => RefundKeeps(cfg, w, id, now);
      case BondDeposit(caller, amount, _) => BondDepositKeeps(cfg, w, caller, amount);
      case BondWithdraw(caller, amount) => BondWithdrawKeeps(cfg, w, caller, amount);
      case Send(from, to, amount) => SendKeeps(cfg, w, from, to, amount);
      case Admin(teeSigner, paused) =>
        CommittedLater(w, w.(teeSigner := teeSigner, paused := paused));
        SamePairs(w, w.(teeSigner := teeSigner, paused := paused));
    }
  }

  /** Freshly deployed and bound to each other; tokens may already sit anywhere. */
  ghost predicate Deployed(cfg: Config, w: World) {
    Wired(cfg, w) && C.Deployed(w.vault) && w.balances == map[] && w.matches == map[] && w.usedTx == {}
  }

  lemma DeployedIsJoint(cfg: Config, w: World)
    requires Deployed(cfg, w)
    ensures Joint(cfg, w) && EscrowSlack(cfg, w) == Get(w.vault.token, cfg.self) &&
            LedgerSlack(cfg, w) == Get(w.vault.token, cfg.ledger)
  {
    C.DeployedOwesNothing(w.vault);
    assert ArmedOf(w) == map[];
    forall t: Address
      ensures CommittedFor(w, t)
    {
      assert OpenOf(w, t) == map[];
    }
  }

  function Gifts(cfg: Config, crypto: Crypto, start: World, steps: seq<Step>, at: Address): nat {
    if steps == [] then 0
    else
      var before := steps[..|steps| - 1];
      Gifts(cfg, crypto, start, before, at) +
      Gift(cfg, crypto, Exec(cfg, crypto, start, before), steps[|steps| - 1], at)
  }

  /**
   Over every run: committed funds are exactly the open matches' and within the armed ones, open
   matches and active bonds pair up, and each contract's balance is what it owes plus exactly what
   it was given for nothing.
   */
  lemma {:induction false} EveryTokenIsAccountedFor(cfg: Config, crypto: Crypto, start: World, steps: seq<Step>)
    requires Deployed(cfg, start)
    ensures var w := Exec(cfg, crypto, start, steps);
            Joint(cfg, w) &&
            Get(w.vault.token, cfg.self) ==
            Sum(ArmedOf(w)) + Get(start.vault.token, cfg.self) + Gifts(cfg, crypto, start, steps, cfg.self) &&
            Get(w.vault.token, cfg.ledger) ==
            C.Owed(w.vault.book) + Get(start.vault.token, cfg.ledger) + Gifts(cfg, crypto, start, steps, cfg.ledger)
  {
    if steps == [] {
      DeployedIsJoint(cfg, start);
    } else {
      var before := steps[..|steps| - 1];
      EveryTokenIsAccountedFor(cfg, crypto, start, before);
      StepKeeps(cfg, crypto, Exec(cfg, crypto, start, before), steps[|steps| - 1]);
    }
  }

  // ---- payouts cannot stick ----

  lemma LedgerCoversBond(cfg: Config, w: World, id: Hash)
    requires Joint(cfg, w) && L.Active(w.vault.book, id)
    ensures var lb := w.vault.book.bonds[id];
            Get(w.vault.token, cfg.ledger) >= Get(w.vault.book.free, lb.maker) + lb.amount &&
            Get(w.vault.book.free, lb.maker) + lb.amount < TWO256
  {
    var lb := w.vault.book.bonds[id];
    SumDrop(C.ActiveAmounts(w.vault.book.bonds), id);
    SumDrop(w.vault.book.free, lb.maker);
    SumDrop(w.vault.token, cfg.ledger);
  }

  lemma EscrowCoversTaker(cfg: Config, w: World, t: Address)
    requires Joint(cfg, w)
    ensures Get(w.vault.token, cfg.self) >= BalanceOf(w, t).armed
  {
    SumDrop(ArmedOf(w), t);
  }

  /** Once the grace has passed, refunding an open match always goes through. */
  lemma RefundNeverSticks(cfg: Config, w: World, id: Hash, now: nat)
    requires Joint(cfg, w) && IsLocked(w, id)
    requires w.matches[id].refundAfter + REFUND_GRACE < TWO40 && now > w.matches[id].refundAfter + REFUND_GRACE
    ensures Refund(cfg, w, id, now).Ok?
  {
    var m := w.matches[id];
    ClosedEffect(w, id, Refunded);
    var c := Closed(w, id, Refunded).value;
    assert L.Active(w.vault.book, id) && w.vault.book.bonds[id].amount == m.bond;
    LedgerCoversBond(cfg, w, id);
    L.TransferSucceeds(c.vault.token, cfg.ledger, m.taker, m.bond);
    L.TransferMoves(c.vault.token, cfg.ledger, m.taker, m.bond);
    assert CommittedFor(w, m.taker);
    SumDrop(OpenOf(w, m.taker), id);
    EscrowCoversTaker(cfg, w, m.taker);
    L.TransferSucceeds(L.SlashBond(c.vault, cfg.ledger, cfg.self, id, m.taker).value.token, cfg.self, m.taker, m.amount);
  }

  /** A proof without fault always releases an open match. */
  lemma ReleaseNeverSticks(cfg: Config, w: World, id: Hash, p: Proof)
    requires Joint(cfg, w) && IsLocked(w, id) && ProofFault(cfg, w, w.matches[id], p).None?
    ensures Release(cfg, w, id, p).Ok?
  {
    var m := w.matches[id];
    ClosedEffect(w, id, Released);
    assert L.Active(w.vault.book, id);
    LedgerCoversBond(cfg, w, id);
    assert CommittedFor(w, m.taker);
    SumDrop(OpenOf(w, m.taker), id);
    EscrowCoversTaker(cfg, w, m.taker);
    L.TransferSucceeds(w.vault.token, cfg.self, m.maker, m.amount);
  }

  /** A taker can take out exactly what is not committed, once the arming has lapsed, and a maker his free bond. */
  lemma WithdrawalsNeverStick(cfg: Config, w: World, who: Address, amount: nat, now: nat)
    requires Joint(cfg, w)
    ensures Withdraw(cfg, w, who, amount, now).Ok? <==>
            now > BalanceOf(w, who).armedUntil && amount <= BalanceOf(w, who).armed - BalanceOf(w, who).committed
    ensures L.WithdrawBond(w.vault, cfg.ledger, who, amount).Ok? <==> amount <= Get(w.vault.book.free, who)
  {
    assert CommittedFor(w, who);
    EscrowCoversTaker(cfg, w, who);
    SumDrop(w.vault.book.free, who);
    if amount <= BalanceOf(w, who).armed {
      L.TransferSucceeds(w.vault.token, cfg.self, who, amount);
    }
    if amount <= Get(w.vault.book.free, who) {
      L.TransferSucceeds(w.vault.token, cfg.ledger, who, amount);
    }
  }

  // ---- what a step does to the matches ----

  predicate SameMatches(w: World, v: World) {
    v.matches == w.matches && v.usedTx == w.usedTx && v.nextTag == w.nextTag
  }

  predicate Opens(w: World, v: World, id: Hash) {
    id !in w.matches && id in v.matches && v.matches == w.matches[id := v.matches[id]] &&
    v.matches[id].stage == Locked && v.matches[id].tag == w.nextTag && v.nextTag == w.nextTag + 1 && v.usedTx == w.usedTx
  }

  predicate Closes(w: World, v: World, id: Hash, stage: Stage) {
    IsLocked(w, id) && v.matches == w.matches[id := w.matches[id].(stage := stage)] && v.nextTag == w.nextTag
  }

  /** A lock opens a match under a new id and tag; a release or a refund closes one, for cause; nothing else touches them. */
  predicate Moves(cfg: Config, w: World, step: Step, v: World) {
    SameMatches(w, v) ||
    match step
    case LockMatch(data, _, _) => DecodeInstruction(data).Some? && Opens(w, v, DecodeInstruction(data).value.matchId)
    case ReleaseMatch(id, p) =>
      Closes(w, v, id, Released) && ProofFault(cfg, w, w.matches[id], p).None? && v.usedTx == w.usedTx + {p.txId}
    case RefundMatch(id, now) =>
      Closes(w, v, id, Refunded) && now > w.matches[id].refundAfter + REFUND_GRACE && v.usedTx == w.usedTx
    case _ => false
  }

  lemma LockMoves(cfg: Config, crypto: Crypto, w: World, data: seq<Byte>, signature: seq<Byte>, x: LockContext)
    requires Lock(cfg, w, data, signature, x, crypto).Ok?
    ensures Moves(cfg, w, LockMatch(data, signature, x), Lock(cfg, w, data, signature, x, crypto).value)
  {
  }

  lemma ReleaseMoves(cfg: Config, w: World, id: Hash, p: Proof)
    requires Release(cfg, w, id, p).Ok?
    ensures Moves(cfg, w, ReleaseMatch(id, p), Release(cfg, w, id, p).value)
    ensures Release(cfg, w, id, p).value.usedTx == w.usedTx + {p.txId} && p.txId !in w.usedTx
  {
  }

  lemma RefundMoves(cfg: Config, w: World, id: Hash, now: nat)
    requires Refund(cfg, w, id, now).Ok?
    ensures Moves(cfg, w, RefundMatch(id, now), Refund(cfg, w, id, now).value)
  {
  }

  lemma NextMoves(cfg: Config, crypto: Crypto, w: World, step: Step)
    ensures Moves(cfg, w, step, Next(cfg, crypto, w, step))
  {
    if Succeeds(cfg, crypto, w, step) {
      match step
      case LockMatch(data, signature, x) => LockMoves(cfg, crypto, w, data, signature, x);
      case ReleaseMatch(id, p) => ReleaseMoves(cfg, w, id, p);
      case RefundMatch(id, now) => RefundMoves(cfg, w, id, now);
      case _ =>
    }
  }

  // ---- a match ends once ----

  /** In w the match still has the terms it had, and if it was over, its stage. */
  predicate Continues(was: Match, w: World, id: Hash) {
    id in w.matches && w.matches[id] == was.(stage := w.matches[id].stage) &&
    (was.stage != Locked ==> w.matches[id] == was)
  }

  lemma StageStep(cfg: Config, w: World, step: Step, v: World, id: Hash)
    requires Moves(cfg, w, step, v) && id in w.matches
    ensures Continues(w.matches[id], v, id)
  {
  }

  lemma ContinuesFurther(was: Match, w: World, v: World, id: Hash)
    requires Continues(was, w, id) && Continues(w.matches[id], v, id)
    ensures Continues(was, v, id)
  {
  }

  /** What it takes to end a match: a proof without fault, or the end of the grace. */
  lemma StageNeeds(cfg: Config, crypto: Crypto, w: World, step: Step, id: Hash)
    requires IsLocked(w, id)
    ensures var v := Next(cfg, crypto, w, step);
            IsLocked(v, id) ||
            (v.matches[id].stage == Released && step.ReleaseMatch? && step.id == id &&
             ProofFault(cfg, w, w.matches[id], step.proof).None?) ||
            (v.matches[id].stage == Refunded && step.RefundMatch? && step.id == id &&
             step.now > w.matches[id].refundAfter + REFUND_GRACE)
  {
    NextMoves(cfg, crypto, w, step);
  }

  // ---- one payment, one match ----

  /** Every match has a tag of its own, and the next one is fresh. */
  ghost predicate Tagged(w: World) {
    (forall id | id in w.matches :: w.matches[id].tag < w.nextTag) &&
    forall i, j | i in w.matches && j in w.matches && w.matches[i].tag == w.matches[j].tag :: i == j
  }

  lemma NextTagged(cfg: Config, w: World, step: Step, v: World)
    requires Tagged(w) && Moves(cfg, w, step, v)
    ensures Tagged(v)
  {
    forall i, j | i in v.matches && j in v.matches && v.matches[i].tag == v.matches[j].tag
      ensures i == j
    {
      assert i in w.matches ==> v.matches[i].tag == w.matches[i].tag;
      assert j in w.matches ==> v.matches[j].tag == w.matches[j].tag;
    }
  }

  /** Over every run no two matches share a destination tag. */
  lemma {:induction false} TagsAreDistinct(cfg: Config, crypto: Crypto, start: World, steps: seq<Step>)
    requires Deployed(cfg, start)
    ensures Tagged(Exec(cfg, crypto, start, steps))
  {
    if steps != [] {
      var w, step := Exec(cfg, crypto, start, steps[..|steps| - 1]), steps[|steps| - 1];
      TagsAreDistinct(cfg, crypto, start, steps[..|steps| - 1]);
      NextMoves(cfg, crypto, w, step);
      NextTagged(cfg, w, step, Next(cfg, crypto, w, step));
    }
  }

  /** So the payment that releases one match is, for its tag alone, no proof for any other. */
  lemma ProofFitsOneMatch(cfg: Config, crypto: Crypto, start: World, steps: seq<Step>, i: Hash, j: Hash, p: Proof)
    requires Deployed(cfg, start) && i != j
    requires var w := Exec(cfg, crypto, start, steps);
             i in w.matches && j in w.matches && ProofFault(cfg, w, w.matches[i], p).None?
    ensures var w := Exec(cfg, crypto, start, steps);
            ProofFault(cfg, w, w.matches[j], p) in {Some(WrongDestination), Some(WrongDestinationTag)}
  {
    TagsAreDistinct(cfg, crypto, start, steps);
  }

  /** Along every run a match keeps its terms, and a released or refunded one stays so. */
  lemma {:induction false} StagesAreFinal(cfg: Config, crypto: Crypto, start: World, steps: seq<Step>,
                                          more: seq<Step>, id: Hash)
    requires id in Exec(cfg, crypto, start, steps).matches
    ensures Continues(Exec(cfg, crypto, start, steps).matches[id], Exec(cfg, crypto, start, steps + more), id)
  {
    if more == [] {
      assert steps + more == steps;
    } else {
      var before, last := more[..|more| - 1], more[|more| - 1];
      StagesAreFinal(cfg, crypto, start, steps, before, id);
      var w := Exec(cfg, crypto, start, steps + before);
      assert (steps + more)[..|steps + more| - 1] == steps + before;
      NextMoves(cfg, crypto, w, last);
      StageStep(cfg, w, last, Next(cfg, crypto, w, last), id);
      ContinuesFurther(Exec(cfg, crypto, start, steps).matches[id], w, Next(cfg, crypto, w, last), id);
    }
  }

  /** Releases of the run paid for with the XRPL transaction tx. */
  function PaidWith(cfg: Config, crypto: Crypto, start: World, steps: seq<Step>, tx: Hash): nat {
    if steps == [] then 0
    else
      var before, step := steps[..|steps| - 1], steps[|steps| - 1];
      PaidWith(cfg, crypto, start, before, tx) +
      if step.ReleaseMatch? && step.proof.txId == tx && Succeeds(cfg, crypto, Exec(cfg, crypto, start, before), step)
      then 1 else 0
  }

  lemma UsedStep(cfg: Config, crypto: Crypto, w: World, step: Step, tx: Hash)
    ensures tx in Next(cfg, crypto, w, step).usedTx <==>
            tx in w.usedTx || (step.ReleaseMatch? && step.proof.txId == tx && Succeeds(cfg, crypto, w, step))
    ensures step.ReleaseMatch? && step.proof.txId == tx && Succeeds(cfg, crypto, w, step) ==> tx !in w.usedTx
  {
    NextMoves(cfg, crypto, w, step);
    if step.ReleaseMatch? && Succeeds(cfg, crypto, w, step) {
      ReleaseMoves(cfg, w, step.id, step.proof);
    }
  }

  /** One XRPL payment releases at most one match. */
  lemma {:induction false} PaymentReleasesOnce(cfg: Config, crypto: Crypto, start: World, steps: seq<Step>, tx: Hash)
    requires Deployed(cfg, start)
    ensures PaidWith(cfg, crypto, start, steps, tx) == if tx in Exec(cfg, crypto, start, steps).usedTx then 1 else 0
  {
    if steps != [] {
      var before := steps[..|steps| - 1];
      PaymentReleasesOnce(cfg, crypto, start, before, tx);
      UsedStep(cfg, crypto, Exec(cfg, crypto, start, before), steps[|steps| - 1], tx);
    }
  }
}
