/** The settlement escrow and the bond ledger it drives, sharing one token (contracts/src/DvPEscrow.sol). */
module Escrow {
  import opened Bytes
  import opened Results
  import opened Abi
  import L = Ledger
  import Signing

  const BAND_BIPS: nat := 100
  const BOND_BIPS: nat := 100
  const MAX_ORACLE_AGE: nat := 60
  const REFUND_GRACE: nat := 120
  const TWO40: int := 0x100_0000_0000
  const TWO32: int := 0x1_0000_0000

  /** What a deployment fixes. */
  datatype Config = Config(self: Address, ledger: Address, minBlock: nat, settlementWindow: nat, paymentWindow: nat,
                           chainId: Uint64)

  datatype TakerBalance = TakerBalance(armed: nat, committed: nat, armedUntil: Uint64)

  /** A match that was never locked has no entry. */
  datatype Stage = Locked | Released | Refunded

  datatype Match = Match(
    taker: Address, tag: nat, lockedAt: nat, stage: Stage, maker: Address, paymentDeadline: nat, refundAfter: nat,
    amount: nat, drops: nat, bond: nat, xrplHash: Hash)

  datatype World = World(
    vault: L.Vault, balances: map<Address, TakerBalance>, matches: map<Hash, Match>, nextTag: nat,
    usedTx: set<Hash>, teeSigner: Address, paused: bool)

  datatype Revert =
    | LockPaused | Undecodable | WrongEscrow | BadSignatureLength | MalleableSignature
    | InvalidTeeSignature(recovered: Address) | MatchExists | InstructionExpired | SelfMatch
    | BelowMinBlock | EmptyXrplAddress | FeeTooLow | OracleZero | StaleOracle | PriceOutOfBand
    | InsufficientArmedBalance | WithdrawLocked | ExceedsUncommitted | NotLocked | WrongProofOwner | ProofInvalid
    | WrongSource | PaymentFailedStatus | WrongDestination | WrongDestinationTag | AmountTooLow | PaymentBeforeLock
    | PaymentOutsideWindow | RefundTooEarly | AmountOverflow | TransferFailed | NativeTransferFailed | Panic
    | LedgerReverted(cause: L.Revert)

  function BalanceOf(w: World, who: Address): TakerBalance {
    if who in w.balances then w.balances[who] else TakerBalance(0, 0, 0)
  }

  function WithBalance(w: World, who: Address, b: TakerBalance): World {
    var balances: map<Address, TakerBalance> := w.balances[who := b];
    w.(balances := balances)
  }

  function Pay(w: World, from: Address, to: Address, amount: nat): Result<World, Revert> {
    match L.Transfer(w.vault.token, from, to, amount)
    case Err(_) => Err(TransferFailed)
    case Ok(t) => Ok(w.(vault := w.vault.(token := t)))
  }

  // ---- taker funds ----

  function Deposit(cfg: Config, w: World, caller: Address, amount: nat, armedUntil: Uint64, approved: bool)
    : Result<World, Revert>
  {
    var b := BalanceOf(w, caller);
    if b.armed + amount >= TWO128 then Err(AmountOverflow)
    else if !approved then Err(TransferFailed)
    else
      var until := if armedUntil > b.armedUntil then armedUntil else b.armedUntil;
      Pay(WithBalance(w, caller, b.(armed := b.armed + amount, armedUntil := until)), caller, cfg.self, amount)
  }

  function Withdraw(cfg: Config, w: World, caller: Address, amount: nat, now: nat): Result<World, Revert> {
    var b := BalanceOf(w, caller);
    if now <= b.armedUntil then Err(WithdrawLocked)
    else if b.armed < b.committed then Err(Panic)
    else if amount > b.armed - b.committed then Err(ExceedsUncommitted)
    else Pay(WithBalance(w, caller, b.(armed := b.armed - amount)), cfg.self, caller, amount)
  }

  // ---- lock ----

  /** Keccak and public-key recovery, as the enclave and the chain share them. */
  datatype Crypto = Crypto(keccak: Signing.Keccak, recover: Signing.Recovery)

  const HALF_ORDER: int := 0x7FFF_FFFF_FFFF_FFFF_FFFF_FFFF_FFFF_FFFF_5D57_6E73_57A4_501D_DFE9_2F46_681B_20A0

  /** ecrecover: only V of 27 or 28 counts, and a failure is the zero address. */
  function EcRecover(recover: Signing.Recovery, digest: Hash, signature: seq<Byte>): Address
    requires |signature| == 65
  {
    if signature[64] != 27 && signature[64] != 28 then L.ZeroAddress()
    else
      match recover(digest, Signing.ShiftDown(signature))
      case None => L.ZeroAddress()
      case Some(a) => a
  }

  /** ethSignedDigest: the ABI encoding of tag, chain id and data hash, hashed and personal-signed. */
  function LockDigest(cfg: Config, keccak: Signing.Keccak, data: seq<Byte>): Hash {
    Signing.PersonalDigest(keccak, Signing.PayloadHash(keccak, keccak(data), cfg.chainId))
  }

  function SignatureFault(cfg: Config, w: World, data: seq<Byte>, signature: seq<Byte>, crypto: Crypto): Option<Revert> {
    if |signature| != 65 then Some(BadSignatureLength)
    else if FromBE(signature[32..64]) > HALF_ORDER then Some(MalleableSignature)
    else
      var recovered := EcRecover(crypto.recover, LockDigest(cfg, crypto.keccak, data), signature);
      if recovered == L.ZeroAddress() || recovered != w.teeSigner then Some(InvalidTeeSignature(recovered)) else None
  }

  /**
   What a lock call finds besides its data: the clock, the oracle's answer, and whether the fee is
   covered and the surplus accepted.
   */
  datatype LockContext = LockContext(now: nat, mid: nat, midTime: nat, feeCovered: bool, surplusTaken: bool)

  function Structural(cfg: Config, w: World, mi: Instruction, now: nat): Option<Revert> {
    if mi.matchId in w.matches then Some(MatchExists)
    else if now > mi.expiresAt then Some(InstructionExpired)
    else if mi.taker == mi.maker then Some(SelfMatch)
    else if mi.amount < cfg.minBlock then Some(BelowMinBlock)
    else if mi.xrpl == [] then Some(EmptyXrplAddress)
    else None
  }

  /** The oracle checks, in uint256 arithmetic that panics on overflow. */
  function Priced(mi: Instruction, x: LockContext): Option<Revert> {
    if !x.feeCovered then Some(FeeTooLow)
    else if x.mid == 0 then Some(OracleZero)
    else if x.midTime > x.now || x.now - x.midTime > MAX_ORACLE_AGE then Some(StaleOracle)
    else if mi.price * 10_000 >= TWO256 || x.mid * (10_000 - BAND_BIPS) >= TWO256 then Some(Panic)
    else if mi.price * 10_000 < x.mid * (10_000 - BAND_BIPS) then Some(PriceOutOfBand)
    else if x.mid * (10_000 + BAND_BIPS) >= TWO256 then Some(Panic)
    else if mi.price * 10_000 > x.mid * (10_000 + BAND_BIPS) then Some(PriceOutOfBand)
    else if mi.amount * mi.price >= TWO256 then Some(Panic)
    else if mi.amount * mi.price / x.mid >= TWO128 then Some(AmountOverflow)
    else None
  }

  /** The taker's funds, at a zero fee. */
  function Funded(w: World, mi: Instruction, now: nat): Option<Revert> {
    var b := BalanceOf(w, mi.taker);
    if b.armedUntil < now then Some(InsufficientArmedBalance)
    else if b.armed < b.committed then Some(Panic)
    else if b.armed - b.committed < mi.amount then Some(InsufficientArmedBalance)
    else if b.committed + mi.amount >= TWO128 then Some(AmountOverflow)
    else None
  }

  function BondFor(amount: nat): nat { amount * BOND_BIPS / 10_000 }

  function NewMatch(cfg: Config, w: World, mi: Instruction, x: LockContext, keccak: seq<Byte> -> Hash): Match
    requires x.mid > 0 && mi.amount >= 0 && mi.price >= 0
  {
    Match(mi.taker, w.nextTag, x.now % TWO40, Locked, mi.maker, (x.now + cfg.paymentWindow) % TWO40,
          (x.now + cfg.settlementWindow) % TWO40, mi.amount, mi.amount * mi.price / x.mid, BondFor(mi.amount),
          keccak(mi.xrpl))
  }

  function Lock(cfg: Config, w: World, data: seq<Byte>, signature: seq<Byte>, x: LockContext, crypto: Crypto)
    : Result<World, Revert>
  {
    if w.paused then Err(LockPaused)
    else
      match DecodeInstruction(data)
      case None => Err(Undecodable)
      case Some(mi) =>
        if mi.escrow != cfg.self then Err(WrongEscrow)
        else if SignatureFault(cfg, w, data, signature, crypto).Some? then
          Err(SignatureFault(cfg, w, data, signature, crypto).value)
        else if Structural(cfg, w, mi, x.now).Some? then Err(Structural(cfg, w, mi, x.now).value)
        else if Priced(mi, x).Some? then Err(Priced(mi, x).value)
        else if Funded(w, mi, x.now).Some? then Err(Funded(w, mi, x.now).value)
        else Reserve(cfg, w, mi, x, crypto.keccak)
  }

  function Reserve(cfg: Config, w: World, mi: Instruction, x: LockContext, keccak: seq<Byte> -> Hash)
    : Result<World, Revert>
    requires x.mid > 0 && mi.amount >= 0 && mi.price >= 0
  {
    var b := BalanceOf(w, mi.taker);
    if BondFor(mi.amount) >= TWO128 then Err(AmountOverflow)
    else
      match L.LockBond(w.vault.book, cfg.self, mi.matchId, mi.maker, BondFor(mi.amount))
      case Err(e) => Err(LedgerReverted(e))
      case Ok(book) =>
        if w.nextTag + 1 >= TWO32 then Err(Panic)
        else if !x.surplusTaken then Err(NativeTransferFailed)
        else
          Ok(WithBalance(w, mi.taker, b.(committed := b.committed + mi.amount))
             .(vault := w.vault.(book := book), matches := w.matches[mi.matchId := NewMatch(cfg, w, mi, x, keccak)],
               nextTag := w.nextTag + 1))
  }

  // ---- release and refund ----

  /** The fields of an XRPPayment proof that release reads; verified is FdcVerification's answer. */
  datatype Proof = Proof(
    owner: Address, txId: Hash, verified: bool, rightSource: bool, status: nat, receiverHash: Hash, hasTag: bool,
    tag: nat, received: int, time: nat)

  function ProofFault(cfg: Config, w: World, m: Match, p: Proof): Option<Revert> {
    if p.owner != cfg.self then Some(WrongProofOwner)
    else if p.txId in w.usedTx || !p.verified then Some(ProofInvalid)
    else if !p.rightSource then Some(WrongSource)
    else if p.status != 0 then Some(PaymentFailedStatus)
    else if p.receiverHash != m.xrplHash then Some(WrongDestination)
    else if !p.hasTag || p.tag != m.tag then Some(WrongDestinationTag)
    else if p.received <= 0 || p.received < m.drops then Some(AmountTooLow)
    else if p.time < m.lockedAt then Some(PaymentBeforeLock)
    else if p.time > m.paymentDeadline then Some(PaymentOutsideWindow)
    else None
  }

  predicate IsLocked(w: World, id: Hash) {
    id in w.matches && w.matches[id].stage == Locked
  }

  /** The match leaves the Locked stage and its amount leaves the taker's armed and committed balances. */
  function Closed(w: World, id: Hash, stage: Stage): Result<World, Revert>
    requires id in w.matches
  {
    var m := w.matches[id];
    var b := BalanceOf(w, m.taker);
    if b.committed < m.amount || b.armed < m.amount then Err(Panic)
    else
      Ok(WithBalance(w, m.taker, b.(committed := b.committed - m.amount, armed := b.armed - m.amount))
         .(matches := w.matches[id := m.(stage := stage)]))
  }

  function Release(cfg: Config, w: World, id: Hash, p: Proof): Result<World, Revert> {
    if !IsLocked(w, id) then Err(NotLocked)
    else
      var m := w.matches[id];
      if ProofFault(cfg, w, m, p).Some? then Err(ProofFault(cfg, w, m, p).value)
      else
        match Closed(w, id, Released)
        case Err(e) => Err(e)
        case Ok(c) =>
          match L.ReleaseBond(c.vault.book, cfg.self, id)
          case Err(e) => Err(LedgerReverted(e))
          case Ok(book) =>
            Pay(c.(vault := c.vault.(book := book), usedTx := c.usedTx + {p.txId}), cfg.self, m.maker, m.amount)
  }

  function Refund(cfg: Config, w: World, id: Hash, now: nat): Result<World, Revert> {
    if !IsLocked(w, id) then Err(NotLocked)
    else
      var m := w.matches[id];
      if m.refundAfter + REFUND_GRACE >= TWO40 then Err(Panic)
      else if now <= m.refundAfter + REFUND_GRACE then Err(RefundTooEarly)
      else
        match Closed(w, id, Refunded)
        case Err(e) => Err(e)
        case Ok(c) =>
          match L.SlashBond(c.vault, cfg.ledger, cfg.self, id, m.taker)
          case Err(e) => Err(LedgerReverted(e))
          case Ok(v) => Pay(c.(vault := v), cfg.self, m.taker, m.amount)
  }
}
