/** What every settlement was earned with, in the words of its instruction and its payment, over every run of the contracts. */
module Payments {
  import opened Bytes
  import opened Results
  import opened Sums
  import opened Abi
  import opened Escrow
  import opened Settlement
  import opened Custody
  import L = Ledger
  import Bands

  /** What step k of the run found. */
  function Found(cfg: Config, crypto: Crypto, start: World, steps: seq<Step>, k: nat): World
    requires k <= |steps|
  {
    Exec(cfg, crypto, start, steps[..k])
  }

  predicate Happened(cfg: Config, crypto: Crypto, start: World, steps: seq<Step>, k: int) {
    0 <= k < |steps| && Succeeds(cfg, crypto, Found(cfg, crypto, start, steps, k), steps[k])
  }

  /** A time as a match holds it, in 40 bits. */
  function Clock(time: nat): nat {
    time % 0x100_0000_0000
  }

  /** In world w the lock made m of the instruction it was given, at the clock and mid it found. */
  predicate Made(cfg: Config, crypto: Crypto, w: World, data: seq<Byte>, x: LockContext, id: Hash, m: Match) {
    var d := DecodeInstruction(data);
    d.Some? && d.value.matchId == id && d.value.escrow == cfg.self && x.mid > 0 &&
    m.taker == d.value.taker && m.maker == d.value.maker && m.amount == d.value.amount && m.tag == w.nextTag &&
    m.drops == Bands.DropsDue(d.value.amount, d.value.price, x.mid) && m.bond == d.value.amount / 100 &&
    m.xrplHash == crypto.keccak(d.value.xrpl) && m.lockedAt == Clock(x.now) &&
    m.paymentDeadline == Clock(x.now + cfg.paymentWindow) &&
    m.refundAfter == Clock(x.now + cfg.settlementWindow)
  }

  /** Step i of the run opened the match id with the terms of m. */
  predicate OpenedAt(cfg: Config, crypto: Crypto, start: World, steps: seq<Step>, i: int, id: Hash, m: Match) {
    Happened(cfg, crypto, start, steps, i) && steps[i].LockMatch? &&
    Made(cfg, crypto, Found(cfg, crypto, start, steps, i), steps[i].data, steps[i].x, id, m)
  }

  /**
   The verified payment p settles the instruction mi locked at x under the tag: from the right chain,
   to the hash of its address, with its tag, of at least amount * price / mid drops, neither before the
   lock nor after the payment window.
   */
  predicate Settles(cfg: Config, crypto: Crypto, mi: Instruction, x: LockContext, tag: nat, p: Proof)
    requires x.mid > 0
  {
    p.verified && p.owner == cfg.self && p.rightSource && p.status == 0 &&
    p.receiverHash == crypto.keccak(mi.xrpl) && p.hasTag && p.tag == tag &&
    p.received > 0 && p.received >= mi.amount * mi.price / x.mid &&
    Clock(x.now) <= p.time <= Clock(x.now + cfg.paymentWindow)
  }

  /** The lock's fields carried to the match decide what a proof must say. */
  lemma FaultlessSettles(cfg: Config, crypto: Crypto, was: World, data: seq<Byte>, x: LockContext, id: Hash, m: Match,
                         w: World, p: Proof)
    requires Made(cfg, crypto, was, data, x, id, m)
    ensures ProofFault(cfg, w, m, p).None? <==>
            p.txId !in w.usedTx && Settles(cfg, crypto, DecodeInstruction(data).value, x, was.nextTag, p)
  {
  }

  lemma LockMakes(cfg: Config, crypto: Crypto, w: World, data: seq<Byte>, signature: seq<Byte>, x: LockContext)
    requires Lock(cfg, w, data, signature, x, crypto).Ok?
    ensures DecodeInstruction(data).Some?
    ensures var id := DecodeInstruction(data).value.matchId;
            var v := Lock(cfg, w, data, signature, x, crypto).value;
            id in v.matches && Made(cfg, crypto, w, data, x, id, v.matches[id])
  {
  }

  // ---- the transactions spent ----

  /** Step k of the run released a match against the XRPL transaction tx. */
  predicate ReleasedWith(cfg: Config, crypto: Crypto, start: World, steps: seq<Step>, k: int, tx: Hash) {
    Happened(cfg, crypto, start, steps, k) && steps[k].ReleaseMatch? && steps[k].proof.txId == tx
  }

  ghost predicate Spent(cfg: Config, crypto: Crypto, start: World, steps: seq<Step>, tx: Hash) {
    exists k :: ReleasedWith(cfg, crypto, start, steps, k, tx)
  }

  lemma HappenedBefore(cfg: Config, crypto: Crypto, start: World, steps: seq<Step>, k: int)
    requires 0 <= k < |steps| - 1
    ensures Found(cfg, crypto, start, steps[..|steps| - 1], k) == Found(cfg, crypto, start, steps, k)
    ensures Happened(cfg, crypto, start, steps[..|steps| - 1], k) <==> Happened(cfg, crypto, start, steps, k)
  {
    assert steps[..|steps| - 1][..k] == steps[..k];
  }

  lemma SpentGrows(cfg: Config, crypto: Crypto, start: World, steps: seq<Step>, tx: Hash)
    requires steps != []
    ensures Spent(cfg, crypto, start, steps, tx) <==>
            Spent(cfg, crypto, start, steps[..|steps| - 1], tx) ||
            ReleasedWith(cfg, crypto, start, steps, |steps| - 1, tx)
  {
    var before := steps[..|steps| - 1];
    forall k | 0 <= k < |steps| - 1
      ensures ReleasedWith(cfg, crypto, start, before, k, tx) <==> ReleasedWith(cfg, crypto, start, steps, k, tx)
    {
      HappenedBefore(cfg, crypto, start, steps, k);
    }
  }

  lemma {:induction false} SpentExactly(cfg: Config, crypto: Crypto, start: World, steps: seq<Step>, tx: Hash)
    requires Deployed(cfg, start)
    ensures tx in Exec(cfg, crypto, start, steps).usedTx <==> Spent(cfg, crypto, start, steps, tx)
  {
    if steps != [] {
      var before := steps[..|steps| - 1];
      SpentExactly(cfg, crypto, start, before, tx);
      SpentGrows(cfg, crypto, start, steps, tx);
      UsedStep(cfg, crypto, Exec(cfg, crypto, start, before), steps[|steps| - 1], tx);
    }
  }

  // ---- every match, back to its lock and to what ended it ----

  /** A later step of the run released the match against a payment that settles the lock at step i and was not used before. */
  ghost predicate PaidAfter(cfg: Config, crypto: Crypto, start: World, steps: seq<Step>, i: int, id: Hash, j: int)
    requires 0 <= i < |steps| && steps[i].LockMatch? && DecodeInstruction(steps[i].data).Some? && steps[i].x.mid > 0
  {
    i < j && Happened(cfg, crypto, start, steps, j) && steps[j].ReleaseMatch? && steps[j].id == id &&
    Settles(cfg, crypto, DecodeInstruction(steps[i].data).value, steps[i].x,
            Found(cfg, crypto, start, steps, i).nextTag, steps[j].proof) &&
    !Spent(cfg, crypto, start, steps[..j], steps[j].proof.txId)
  }

  /** The end of the settlement window of a lock, as the match holds it, and two minutes. */
  function LapsesAt(cfg: Config, x: LockContext): nat {
    Clock(x.now + cfg.settlementWindow) + 120
  }

  lemma LapsesWithMatch(cfg: Config, crypto: Crypto, w: World, data: seq<Byte>, x: LockContext, id: Hash, m: Match)
    requires Made(cfg, crypto, w, data, x, id, m)
    ensures LapsesAt(cfg, x) == m.refundAfter + 120
  {
  }

  /** A later step refunded the match, the settlement window and two minutes after its lock. */
  ghost predicate LapsedAfter(cfg: Config, crypto: Crypto, start: World, steps: seq<Step>, i: int, id: Hash, j: int)
    requires 0 <= i < |steps| && steps[i].LockMatch?
  {
    i < j && Happened(cfg, crypto, start, steps, j) && steps[j].RefundMatch? && steps[j].id == id &&
    steps[j].now > LapsesAt(cfg, steps[i].x)
  }

  /** The match m goes back to the lock at step i and, if it is over, to what ended it. */
  ghost predicate Earned(cfg: Config, crypto: Crypto, start: World, steps: seq<Step>, id: Hash, m: Match, i: int) {
    OpenedAt(cfg, crypto, start, steps, i, id, m) &&
    match m.stage
    case Locked => true
    case Released => exists j :: PaidAfter(cfg, crypto, start, steps, i, id, j)
    case Refunded => exists j :: LapsedAfter(cfg, crypto, start, steps, i, id, j)
  }

  lemma PaidBefore(cfg: Config, crypto: Crypto, start: World, steps: seq<Step>, id: Hash, i: int, j: int)
    requires 0 <= i < |steps| - 1 && steps[i].LockMatch? && DecodeInstruction(steps[i].data).Some? && steps[i].x.mid > 0
    requires PaidAfter(cfg, crypto, start, steps[..|steps| - 1], i, id, j)
    ensures PaidAfter(cfg, crypto, start, steps, i, id, j)
  {
    HappenedBefore(cfg, crypto, start, steps, i);
    HappenedBefore(cfg, crypto, start, steps, j);
    assert steps[..|steps| - 1][..j] == steps[..j];
  }

  lemma LapsedBefore(cfg: Config, crypto: Crypto, start: World, steps: seq<Step>, id: Hash, i: int, j: int)
    requires 0 <= i < |steps| - 1 && steps[i].LockMatch?
    requires LapsedAfter(cfg, crypto, start, steps[..|steps| - 1], i, id, j)
    ensures LapsedAfter(cfg, crypto, start, steps, i, id, j)
  {
    HappenedBefore(cfg, crypto, start, steps, j);
  }

  lemma EarnedBefore(cfg: Config, crypto: Crypto, start: World, steps: seq<Step>, id: Hash, m: Match, i: int)
    requires steps != [] && Earned(cfg, crypto, start, steps[..|steps| - 1], id, m, i)
    ensures Earned(cfg, crypto, start, steps, id, m, i)
  {
    var before := steps[..|steps| - 1];
    HappenedBefore(cfg, crypto, start, steps, i);
    match m.stage
    case Locked =>
    case Released =>
      var j :| PaidAfter(cfg, crypto, start, before, i, id, j);
      PaidBefore(cfg, crypto, start, steps, id, i, j);
    case Refunded =>
      var j :| LapsedAfter(cfg, crypto, start, before, i, id, j);
      LapsedBefore(cfg, crypto, start, steps, id, i, j);
  }

  /** The last step opened the match. */
  lemma EarnedByOpening(cfg: Config, crypto: Crypto, start: World, steps: seq<Step>, id: Hash)
    requires steps != []
    requires id !in Exec(cfg, crypto, start, steps[..|steps| - 1]).matches && id in Exec(cfg, crypto, start, steps).matches
    ensures Earned(cfg, crypto, start, steps, id, Exec(cfg, crypto, start, steps).matches[id], |steps| - 1)
  {
    var w, step := Exec(cfg, crypto, start, steps[..|steps| - 1]), steps[|steps| - 1];
    NextMoves(cfg, crypto, w, step);
    assert Succeeds(cfg, crypto, w, step) && step.LockMatch?;
    LockMakes(cfg, crypto, w, step.data, step.signature, step.x);
  }

  lemma MadeAtAnyStage(cfg: Config, crypto: Crypto, w: World, data: seq<Byte>, x: LockContext, id: Hash, was: Match, m: Match)
    requires Made(cfg, crypto, w, data, x, id, was) && m == was.(stage := m.stage)
    ensures Made(cfg, crypto, w, data, x, id, m)
  {
  }

  /** The last step released the match that step i had opened. */
  lemma EarnedByRelease(cfg: Config, crypto: Crypto, start: World, steps: seq<Step>, id: Hash, m: Match, i: int)
    requires Deployed(cfg, start) && OpenedAt(cfg, crypto, start, steps, i, id, m)
    requires var w, step := Exec(cfg, crypto, start, steps[..|steps| - 1]), steps[|steps| - 1];
             Succeeds(cfg, crypto, w, step) && step.ReleaseMatch? && step.id == id && ProofFault(cfg, w, m, step.proof).None?
    requires i < |steps| - 1
    ensures PaidAfter(cfg, crypto, start, steps, i, id, |steps| - 1)
  {
    var last := |steps| - 1;
    var w, p := Exec(cfg, crypto, start, steps[..last]), steps[last].proof;
    FaultlessSettles(cfg, crypto, Found(cfg, crypto, start, steps, i), steps[i].data, steps[i].x, id, m, w, p);
    SpentExactly(cfg, crypto, start, steps[..last], p.txId);
  }

  /** The last step refunded the match that step i had opened. */
  lemma EarnedByLapse(cfg: Config, crypto: Crypto, start: World, steps: seq<Step>, id: Hash, m: Match, i: int)
    requires OpenedAt(cfg, crypto, start, steps, i, id, m) && i < |steps| - 1
    requires Happened(cfg, crypto, start, steps, |steps| - 1)
    requires var step := steps[|steps| - 1]; step.RefundMatch? && step.id == id && step.now > m.refundAfter + 120
    ensures LapsedAfter(cfg, crypto, start, steps, i, id, |steps| - 1)
  {
    LapsesWithMatch(cfg, crypto, Found(cfg, crypto, start, steps, i), steps[i].data, steps[i].x, id, m);
  }

  /** The last step ended the match that step i had opened. */
  lemma EarnedByEnding(cfg: Config, crypto: Crypto, start: World, steps: seq<Step>, id: Hash, was: Match, m: Match, i: int)
    requires Deployed(cfg, start) && OpenedAt(cfg, crypto, start, steps, i, id, was) && i < |steps| - 1
    requires var w := Exec(cfg, crypto, start, steps[..|steps| - 1]);
             Succeeds(cfg, crypto, w, steps[|steps| - 1]) && was.stage == Locked && m == was.(stage := m.stage) &&
             Ended(cfg, w, steps[|steps| - 1], id, was, m.stage)
    ensures Earned(cfg, crypto, start, steps, id, m, i)
  {
    var last := |steps| - 1;
    MadeAtAnyStage(cfg, crypto, Found(cfg, crypto, start, steps, i), steps[i].data, steps[i].x, id, was, m);
    assert OpenedAt(cfg, crypto, start, steps, i, id, m);
    if m.stage == Released {
      EarnedByRelease(cfg, crypto, start, steps, id, was, i);
      assert PaidAfter(cfg, crypto, start, steps, i, id, last);
    } else {
      EarnedByLapse(cfg, crypto, start, steps, id, was, i);
      assert LapsedAfter(cfg, crypto, start, steps, i, id, last);
    }
  }

  /** The step took the open match m to the stage, for cause. */
  predicate Ended(cfg: Config, w: World, step: Step, id: Hash, m: Match, stage: Stage) {
    (stage == Released && step.ReleaseMatch? && step.id == id && ProofFault(cfg, w, m, step.proof).None?) ||
    (stage == Refunded && step.RefundMatch? && step.id == id && step.now > m.refundAfter + 120)
  }

  lemma EndsForCause(cfg: Config, crypto: Crypto, w: World, step: Step, id: Hash)
    requires id in w.matches
    ensures var v := Next(cfg, crypto, w, step);
            id in v.matches && (v.matches[id] == w.matches[id] ||
              (Succeeds(cfg, crypto, w, step) && w.matches[id].stage == Locked &&
               v.matches[id] == w.matches[id].(stage := v.matches[id].stage) &&
               Ended(cfg, w, step, id, w.matches[id], v.matches[id].stage)))
  {
    NextMoves(cfg, crypto, w, step);
  }

  /**
   Over every run each match goes back to the one lock whose instruction, clock and mid made its
   terms; a released one also to a fresh payment that settles that instruction, a refunded one to a
   call after the settlement window and the grace.
   */
  lemma {:induction false} EverySettlementWasEarned(cfg: Config, crypto: Crypto, start: World, steps: seq<Step>, id: Hash)
    requires Deployed(cfg, start) && id in Exec(cfg, crypto, start, steps).matches
    ensures exists i :: Earned(cfg, crypto, start, steps, id, Exec(cfg, crypto, start, steps).matches[id], i)
  {
    var before := steps[..|steps| - 1];
    var w, v := Exec(cfg, crypto, start, before), Exec(cfg, crypto, start, steps);
    if id !in w.matches {
      EarnedByOpening(cfg, crypto, start, steps, id);
    } else {
      EverySettlementWasEarned(cfg, crypto, start, before, id);
      var i :| Earned(cfg, crypto, start, before, id, w.matches[id], i);
      EndsForCause(cfg, crypto, w, steps[|steps| - 1], id);
      EarnedBefore(cfg, crypto, start, steps, id, w.matches[id], i);
      if v.matches[id] != w.matches[id] {
        EarnedByEnding(cfg, crypto, start, steps, id, w.matches[id], v.matches[id], i);
      }
    }
  }

  /**
   The other way round: an open match of any run is released by exactly the fresh payments that
   settle the instruction it was locked with.
   */
  lemma PaymentReleasesExactly(cfg: Config, crypto: Crypto, start: World, steps: seq<Step>, id: Hash, i: int, p: Proof)
    requires Deployed(cfg, start) && IsLocked(Exec(cfg, crypto, start, steps), id)
    requires OpenedAt(cfg, crypto, start, steps, i, id, Exec(cfg, crypto, start, steps).matches[id])
    ensures Release(cfg, Exec(cfg, crypto, start, steps), id, p).Ok? <==>
            Settles(cfg, crypto, DecodeInstruction(steps[i].data).value, steps[i].x,
                    Found(cfg, crypto, start, steps, i).nextTag, p) &&
            !Spent(cfg, crypto, start, steps, p.txId)
  {
    var w := Exec(cfg, crypto, start, steps);
    EveryTokenIsAccountedFor(cfg, crypto, start, steps);
    FaultlessSettles(cfg, crypto, Found(cfg, crypto, start, steps, i), steps[i].data, steps[i].x, id, w.matches[id], w, p);
    SpentExactly(cfg, crypto, start, steps, p.txId);
    if ProofFault(cfg, w, w.matches[id], p).None? {
      ReleaseNeverSticks(cfg, w, id, p);
    }
  }

  lemma RefundsExactly(cfg: Config, crypto: Crypto, was: World, data: seq<Byte>, x: LockContext, w: World, id: Hash, now: nat)
    requires Joint(cfg, w) && IsLocked(w, id) && Made(cfg, crypto, was, data, x, id, w.matches[id])
    ensures Refund(cfg, w, id, now).Ok? <==> LapsesAt(cfg, x) < 0x100_0000_0000 && now > LapsesAt(cfg, x)
  {
    LapsesWithMatch(cfg, crypto, was, data, x, id, w.matches[id]);
    if w.matches[id].refundAfter + 120 < TWO40 && now > w.matches[id].refundAfter + 120 {
      RefundNeverSticks(cfg, w, id, now);
    }
  }

  /** And refunded by exactly the calls after its settlement window and the grace, while that instant fits 40 bits. */
  lemma LapseRefundsExactly(cfg: Config, crypto: Crypto, start: World, steps: seq<Step>, id: Hash, i: int, now: nat)
    requires Deployed(cfg, start) && IsLocked(Exec(cfg, crypto, start, steps), id)
    requires OpenedAt(cfg, crypto, start, steps, i, id, Exec(cfg, crypto, start, steps).matches[id])
    ensures Refund(cfg, Exec(cfg, crypto, start, steps), id, now).Ok? <==>
            LapsesAt(cfg, steps[i].x) < 0x100_0000_0000 && now > LapsesAt(cfg, steps[i].x)
  {
    EveryTokenIsAccountedFor(cfg, crypto, start, steps);
    RefundsExactly(cfg, crypto, Found(cfg, crypto, start, steps, i), steps[i].data, steps[i].x,
                   Exec(cfg, crypto, start, steps), id, now);
  }
}
