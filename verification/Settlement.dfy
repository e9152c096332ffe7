/** Escrow and ledger together over every run: backing, pairing of matches and bonds, and payouts that cannot stick. */
module Settlement {
  import opened Bytes
  import opened Sums
  import opened Abi
  import opened Escrow
  import L = Ledger
  import C = Conservation

  // ---- what the escrow owes ----

  ghost function ArmedOf(w: World): L.Amounts {
    map a: Address | a in w.balances :: w.balances[a].armed
  }

  /** The amounts of a taker's open matches. */
  ghost function OpenOf(w: World, taker: Address): map<Hash, nat> {
    map id: Hash | id in w.matches && w.matches[id].stage == Locked && w.matches[id].taker == taker :: w.matches[id].amount
  }

  ghost function EscrowSlack(cfg: Config, w: World): int {
    Get(w.vault.token, cfg.self) - Sum(ArmedOf(w))
  }

  ghost function LedgerSlack(cfg: Config, w: World): int {
    C.Stranded(w.vault, cfg.ledger)
  }

  /** committed is exactly what a taker's open matches hold, and stays within armed, a uint128. */
  ghost predicate CommittedFor(w: World, t: Address) {
    BalanceOf(w, t).committed == Sum(OpenOf(w, t)) && BalanceOf(w, t).committed <= BalanceOf(w, t).armed < TWO128
  }

  ghost predicate Committed(w: World) {
    forall t: Address :: CommittedFor(w, t)
  }

  /** Open matches and active bonds are the same ids, with the same maker and amount. */
  ghost predicate Paired(w: World) {
    forall id: Hash :: (IsLocked(w, id) <==> L.Active(w.vault.book, id)) &&
      (IsLocked(w, id) ==> w.vault.book.bonds[id].maker == w.matches[id].maker &&
                           w.vault.book.bonds[id].amount == w.matches[id].bond)
  }

  ghost predicate Wired(cfg: Config, w: World) {
    cfg.self != cfg.ledger && w.vault.book.escrow == cfg.self && Sum(w.vault.token) < TWO256
  }

  ghost predicate Backed(cfg: Config, w: World) {
    EscrowSlack(cfg, w) >= 0 && LedgerSlack(cfg, w) >= 0
  }

  ghost predicate Joint(cfg: Config, w: World) {
    Wired(cfg, w) && Committed(w) && Paired(w) && Backed(cfg, w)
  }

  // ---- small effects ----

  lemma WithBalanceEffect(w: World, who: Address, b: TakerBalance)
    ensures Sum(ArmedOf(WithBalance(w, who, b))) == Sum(ArmedOf(w)) - BalanceOf(w, who).armed + b.armed
    ensures forall t: Address | t != who :: BalanceOf(WithBalance(w, who, b), t) == BalanceOf(w, t)
    ensures BalanceOf(WithBalance(w, who, b), who) == b
  {
    SumSet(ArmedOf(w), who, b.armed);
    var set': L.Amounts := ArmedOf(w)[who := b.armed];
    assert ArmedOf(WithBalance(w, who, b)) == set';
  }

  lemma PayEffect(cfg: Config, w: World, from: Address, to: Address, amount: nat)
    requires Pay(w, from, to, amount).Ok?
    ensures var v := Pay(w, from, to, amount).value;
            v == w.(vault := w.vault.(token := v.vault.token)) && Sum(v.vault.token) == Sum(w.vault.token) &&
            (from != to ==> Get(v.vault.token, from) == Get(w.vault.token, from) - amount &&
                            Get(v.vault.token, to) == Get(w.vault.token, to) + amount) &&
            (from == to ==> v.vault.token[from] == Get(w.vault.token, from)) &&
            forall a | a != from && a != to :: Get(v.vault.token, a) == Get(w.vault.token, a)
  {
    L.TransferMoves(w.vault.token, from, to, amount);
  }

  /** A payment out of the escrow, and what it leaves behind at the two contracts' own addresses. */
  lemma PayoutEffect(cfg: Config, w: World, to: Address, amount: nat)
    requires Wired(cfg, w) && Pay(w, cfg.self, to, amount).Ok?
    ensures var v := Pay(w, cfg.self, to, amount).value;
            Wired(cfg, v) && v == w.(vault := v.vault) && v.vault.book == w.vault.book &&
            EscrowSlack(cfg, v) == EscrowSlack(cfg, w) - amount + Kept(cfg.self, to, amount) &&
            LedgerSlack(cfg, v) == LedgerSlack(cfg, w) + Kept(cfg.ledger, to, amount)
  {
    PayEffect(cfg, w, cfg.self, to, amount);
    assert ArmedOf(Pay(w, cfg.self, to, amount).value) == ArmedOf(w);
  }

  /** What a payout leaves behind at the escrow's or the ledger's own address. */
  function Kept(at: Address, to: Address, amount: nat): nat {
    if to == at then amount else 0
  }

  lemma OpenClosed(w: World, v: World, id: Hash, stage: Stage, t: Address)
    requires IsLocked(w, id) && stage != Locked && v.matches == w.matches[id := w.matches[id].(stage := stage)]
    ensures OpenOf(v, t) == if t == w.matches[id].taker then OpenOf(w, t) - {id} else OpenOf(w, t)
  {
  }

  lemma ClosedCommitted(w: World, id: Hash, stage: Stage, t: Address)
    requires CommittedFor(w, t) && IsLocked(w, id) && stage != Locked && Closed(w, id, stage).Ok?
    ensures CommittedFor(Closed(w, id, stage).value, t)
  {
    OpenClosed(w, Closed(w, id, stage).value, id, stage, t);
    SumDrop(OpenOf(w, t), id);
  }

  /** Closing a match: its amount leaves armed, committed and the open sum of its taker together. */
  lemma ClosedEffect(w: World, id: Hash, stage: Stage)
    requires Committed(w) && IsLocked(w, id) && stage != Locked
    ensures Closed(w, id, stage).Ok?
    ensures var c := Closed(w, id, stage).value;
            Committed(c) && Sum(ArmedOf(c)) == Sum(ArmedOf(w)) - w.matches[id].amount && c.vault == w.vault &&
            c.matches == w.matches[id := w.matches[id].(stage := stage)] && c.usedTx == w.usedTx
  {
    var m := w.matches[id];
    var b := BalanceOf(w, m.taker);
    assert CommittedFor(w, m.taker);
    SumDrop(OpenOf(w, m.taker), id);
    var after := b.(committed := b.committed - m.amount, armed := b.armed - m.amount);
    WithBalanceEffect(w, m.taker, after);
    var c := Closed(w, id, stage).value;
    assert ArmedOf(c) == ArmedOf(WithBalance(w, m.taker, after));
    forall t: Address
      ensures CommittedFor(c, t)
    {
      assert CommittedFor(w, t);
      ClosedCommitted(w, id, stage, t);
    }
  }

  // ---- each operation keeps the invariant and moves the slack by what it names ----

  lemma SameOpen(w: World, v: World)
    requires v.matches == w.matches
    ensures forall t: Address :: OpenOf(v, t) == OpenOf(w, t)
  {
  }

  /** A taker's own balance changes, not below what is committed. */
  lemma RearmedCommitted(w: World, v: World, who: Address, b: TakerBalance)
    requires Committed(w) && v.balances == WithBalance(w, who, b).balances && v.matches == w.matches
    requires b.committed == BalanceOf(w, who).committed <= b.armed < TWO128
    ensures Committed(v) && Sum(ArmedOf(v)) == Sum(ArmedOf(w)) - BalanceOf(w, who).armed + b.armed
  {
    WithBalanceEffect(w, who, b);
    assert ArmedOf(v) == ArmedOf(WithBalance(w, who, b));
    SameOpen(w, v);
    forall t: Address
      ensures CommittedFor(v, t)
    {
      assert CommittedFor(w, t);
      assert BalanceOf(v, t) == BalanceOf(WithBalance(w, who, b), t);
    }
  }

  lemma DepositKeeps(cfg: Config, w: World, caller: Address, amount: nat, armedUntil: Uint64, approved: bool)
    requires Joint(cfg, w) && caller != cfg.self && caller != cfg.ledger
    requires Deposit(cfg, w, caller, amount, armedUntil, approved).Ok?
    ensures var v := Deposit(cfg, w, caller, amount, armedUntil, approved).value;
            Joint(cfg, v) && EscrowSlack(cfg, v) == EscrowSlack(cfg, w) && LedgerSlack(cfg, v) == LedgerSlack(cfg, w)
  {
    var b := BalanceOf(w, caller);
    var until := if armedUntil > b.armedUntil then armedUntil else b.armedUntil;
    var after := b.(armed := b.armed + amount, armedUntil := until);
    PayEffect(cfg, WithBalance(w, caller, after), caller, cfg.self, amount);
    assert CommittedFor(w, caller);
    var v := Deposit(cfg, w, caller, amount, armedUntil, approved).value;
    RearmedCommitted(w, v, caller, after);
    SamePairs(w, v);
  }

  lemma SamePairs(w: World, v: World)
    requires Paired(w) && v.matches == w.matches && v.vault.book.bonds == w.vault.book.bonds
    ensures Paired(v)
  {
    forall id: Hash
      ensures IsLocked(v, id) == IsLocked(w, id) && L.Active(v.vault.book, id) == L.Active(w.vault.book, id)
    {
    }
  }

  lemma WithdrawKeeps(cfg: Config, w: World, caller: Address, amount: nat, now: nat)
    requires Joint(cfg, w) && caller != cfg.self && caller != cfg.ledger && Withdraw(cfg, w, caller, amount, now).Ok?
    ensures var v := Withdraw(cfg, w, caller, amount, now).value;
            Joint(cfg, v) && EscrowSlack(cfg, v) == EscrowSlack(cfg, w) && LedgerSlack(cfg, v) == LedgerSlack(cfg, w)
  {
    var b := BalanceOf(w, caller);
    var after := b.(armed := b.armed - amount);
    PayEffect(cfg, WithBalance(w, caller, after), cfg.self, caller, amount);
    assert CommittedFor(w, caller);
    var v := Withdraw(cfg, w, caller, amount, now).value;
    RearmedCommitted(w, v, caller, after);
    SamePairs(w, v);
  }

  /** A lock never meets an active bond: the escrow refuses an id it has seen, and pairing does the rest. */
  lemma LockMeetsNoActiveBond(cfg: Config, w: World, data: seq<Byte>, signature: seq<Byte>, x: LockContext, crypto: Crypto)
    requires Paired(w) && Lock(cfg, w, data, signature, x, crypto).Ok?
    ensures DecodeInstruction(data).Some? && !L.Active(w.vault.book, DecodeInstruction(data).value.matchId)
  {
    assert !IsLocked(w, DecodeInstruction(data).value.matchId);
  }

  lemma ReserveKeeps(cfg: Config, w: World, mi: Instruction, x: LockContext, keccak: seq<Byte> -> Hash)
    requires Joint(cfg, w) && x.mid > 0 && mi.amount >= 0 && mi.price >= 0 && mi.matchId !in w.matches
    requires Funded(w, mi, x.now).None? && Reserve(cfg, w, mi, x, keccak).Ok?
    ensures var v := Reserve(cfg, w, mi, x, keccak).value;
            Joint(cfg, v) && EscrowSlack(cfg, v) == EscrowSlack(cfg, w) && LedgerSlack(cfg, v) == LedgerSlack(cfg, w)
  {
    ReservedSlack(cfg, w, mi, x, keccak);
    ReservedCommitted(cfg, w, mi, x, keccak);
    ReservedPaired(cfg, w, mi, x, keccak);
  }

  lemma ReservedSlack(cfg: Config, w: World, mi: Instruction, x: LockContext, keccak: seq<Byte> -> Hash)
    requires Paired(w) && x.mid > 0 && mi.amount >= 0 && mi.price >= 0 && mi.matchId !in w.matches
    requires Reserve(cfg, w, mi, x, keccak).Ok?
    ensures var v := Reserve(cfg, w, mi, x, keccak).value;
            EscrowSlack(cfg, v) == EscrowSlack(cfg, w) && LedgerSlack(cfg, v) == LedgerSlack(cfg, w)
  {
    var b := BalanceOf(w, mi.taker);
    var after := b.(committed := b.committed + mi.amount);
    var v := Reserve(cfg, w, mi, x, keccak).value;
    WithBalanceEffect(w, mi.taker, after);
    assert ArmedOf(v) == ArmedOf(WithBalance(w, mi.taker, after));
    assert !IsLocked(w, mi.matchId) && !L.Active(w.vault.book, mi.matchId);
    C.LockEffect(w.vault.book, cfg.self, mi.matchId, mi.maker, BondFor(mi.amount), mi.maker);
  }

  lemma OpenAdded(w: World, v: World, id: Hash, m: Match, t: Address)
    requires id !in w.matches && m.stage == Locked && v.matches == w.matches[id := m]
    ensures Sum(OpenOf(v, t)) == Sum(OpenOf(w, t)) + if t == m.taker then m.amount else 0
  {
    if t == m.taker {
      SumSet(OpenOf(w, t), id, m.amount);
      assert OpenOf(v, t) == OpenOf(w, t)[id := m.amount];
    } else {
      assert OpenOf(v, t) == OpenOf(w, t);
    }
  }

  lemma ReservedCommitted(cfg: Config, w: World, mi: Instruction, x: LockContext, keccak: seq<Byte> -> Hash)
    requires Committed(w) && x.mid > 0 && mi.amount >= 0 && mi.price >= 0 && mi.matchId !in w.matches
    requires Funded(w, mi, x.now).None? && Reserve(cfg, w, mi, x, keccak).Ok?
    ensures Committed(Reserve(cfg, w, mi, x, keccak).value)
  {
    var v := Reserve(cfg, w, mi, x, keccak).value;
    forall t: Address
      ensures CommittedFor(v, t)
    {
      assert CommittedFor(w, t);
      OpenAdded(w, v, mi.matchId, NewMatch(cfg, w, mi, x, keccak), t);
    }
  }

  lemma ReservedPaired(cfg: Config, w: World, mi: Instruction, x: LockContext, keccak: seq<Byte> -> Hash)
    requires Paired(w) && x.mid > 0 && mi.amount >= 0 && mi.price >= 0 && mi.matchId !in w.matches
    requires Reserve(cfg, w, mi, x, keccak).Ok?
    ensures Paired(Reserve(cfg, w, mi, x, keccak).value)
  {
    var v := Reserve(cfg, w, mi, x, keccak).value;
    forall id: Hash
      ensures (IsLocked(v, id) <==> L.Active(v.vault.book, id)) &&
              (IsLocked(v, id) ==> v.vault.book.bonds[id].maker == v.matches[id].maker &&
                                   v.vault.book.bonds[id].amount == v.matches[id].bond)
    {
      if id != mi.matchId {
        assert IsLocked(v, id) <==> IsLocked(w, id);
        assert L.Active(v.vault.book, id) <==> L.Active(w.vault.book, id);
      }
    }
  }

  lemma LockKeeps(cfg: Config, w: World, data: seq<Byte>, signature: seq<Byte>, x: LockContext, crypto: Crypto)
    requires Joint(cfg, w) && Lock(cfg, w, data, signature, x, crypto).Ok?
    ensures var v := Lock(cfg, w, data, signature, x, crypto).value;
            Joint(cfg, v) && EscrowSlack(cfg, v) == EscrowSlack(cfg, w) && LedgerSlack(cfg, v) == LedgerSlack(cfg, w)
  {
    ReserveKeeps(cfg, w, DecodeInstruction(data).value, x, crypto.keccak);
  }

  /** After a match is closed and its bond deactivated, the rest still pair up. */
  lemma ClosedPaired(w: World, v: World, id: Hash, stage: Stage)
    requires Paired(w) && IsLocked(w, id) && stage != Locked
    requires v.matches == w.matches[id := w.matches[id].(stage := stage)]
    requires v.vault.book.bonds == w.vault.book.bonds[id := w.vault.book.bonds[id].(active := false)]
    ensures Paired(v)
  {
    forall i: Hash
      ensures (IsLocked(v, i) <==> L.Active(v.vault.book, i)) &&
              (IsLocked(v, i) ==> v.vault.book.bonds[i].maker == v.matches[i].maker &&
                                  v.vault.book.bonds[i].amount == v.matches[i].bond)
    {
      if i != id {
        assert IsLocked(v, i) <==> IsLocked(w, i);
        assert L.Active(v.vault.book, i) <==> L.Active(w.vault.book, i);
      }
    }
  }

  lemma CommittedLater(w: World, v: World)
    requires Committed(w) && v.matches == w.matches && v.balances == w.balances
    ensures Committed(v) && ArmedOf(v) == ArmedOf(w)
  {
    SameOpen(w, v);
    forall t: Address
      ensures CommittedFor(v, t)
    {
      assert CommittedFor(w, t);
    }
  }

  lemma ReleaseKeeps(cfg: Config, w: World, id: Hash, p: Proof)
    requires Joint(cfg, w) && Release(cfg, w, id, p).Ok?
    ensures var v := Release(cfg, w, id, p).value;
            var m := w.matches[id];
            Joint(cfg, v) && EscrowSlack(cfg, v) == EscrowSlack(cfg, w) + Kept(cfg.self, m.maker, m.amount) &&
            LedgerSlack(cfg, v) == LedgerSlack(cfg, w) + Kept(cfg.ledger, m.maker, m.amount)
  {
    var m := w.matches[id];
    ClosedEffect(w, id, Released);
    var c := Closed(w, id, Released).value;
    C.ReleaseEffect(c.vault.book, cfg.self, id, m.maker);
    var book := L.ReleaseBond(c.vault.book, cfg.self, id).value;
    var d := c.(vault := c.vault.(book := book), usedTx := c.usedTx + {p.txId});
    CommittedLater(c, d);
    PayoutEffect(cfg, d, m.maker, m.amount);
    var v := Release(cfg, w, id, p).value;
    CommittedLater(d, v);
    ClosedPaired(w, v, id, Released);
  }

  /** The slash half of a refund. */
  lemma SlashStage(cfg: Config, c: World, id: Hash, to: Address)
    requires Wired(cfg, c) && L.SlashBond(c.vault, cfg.ledger, cfg.self, id, to).Ok?
    ensures var d := c.(vault := L.SlashBond(c.vault, cfg.ledger, cfg.self, id, to).value);
            var bond := c.vault.book.bonds[id].amount;
            Wired(cfg, d) && EscrowSlack(cfg, d) == EscrowSlack(cfg, c) + Kept(cfg.self, to, bond) &&
            LedgerSlack(cfg, d) == LedgerSlack(cfg, c) + Kept(cfg.ledger, to, bond)
  {
    var bond := c.vault.book.bonds[id].amount;
    C.SlashEffect(c.vault, cfg.ledger, cfg.self, id, to, to);
    L.TransferMoves(c.vault.token, cfg.ledger, to, bond);
    assert ArmedOf(c.(vault := L.SlashBond(c.vault, cfg.ledger, cfg.self, id, to).value)) == ArmedOf(c);
  }

  lemma RefundKeeps(cfg: Config, w: World, id: Hash, now: nat)
    requires Joint(cfg, w) && Refund(cfg, w, id, now).Ok?
    ensures var v := Refund(cfg, w, id, now).value;
            var m := w.matches[id];
            Joint(cfg, v) && EscrowSlack(cfg, v) == EscrowSlack(cfg, w) + Kept(cfg.self, m.taker, m.amount + m.bond) &&
            LedgerSlack(cfg, v) == LedgerSlack(cfg, w) + Kept(cfg.ledger, m.taker, m.amount + m.bond)
  {
    var m := w.matches[id];
    assert IsLocked(w, id) && L.Active(w.vault.book, id);
    ClosedEffect(w, id, Refunded);
    var c := Closed(w, id, Refunded).value;
    SlashStage(cfg, c, id, m.taker);
    var d := c.(vault := L.SlashBond(c.vault, cfg.ledger, cfg.self, id, m.taker).value);
    CommittedLater(c, d);
    PayoutEffect(cfg, d, m.taker, m.amount);
    var v := Refund(cfg, w, id, now).value;
    CommittedLater(d, v);
    ClosedPaired(w, v, id, Refunded);
  }
}
