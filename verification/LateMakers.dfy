/** When a maker who was not yet quoting as the call began can still win it. */
module LateMakers {
  import opened Bytes
  import opened Results
  import opened Matching
  import opened Book
  import opened MatchEngine
  import opened Protocol
  import opened History
  import opened Anomalies
  import Chain = ChainCache

  /** A match the RFQ holds or a call has returned pays the best quote the call saw, of a maker it had not listed. */
  ghost predicate WonLate(env: Env, steps: seq<Step>, o: Outcome, v: Visit, w: Quote) {
    Given(Exec(env, steps), v.id, o) && Took(env, steps, v) && BestSeen(env, steps, v, w) && o.Matched? &&
    o.signed.Some? && o.signed.value.instruction == InstructionFor(View(env, steps, v), w) &&
    w.maker !in Listing(env, steps, v)
  }

  ghost predicate CanWinLate(env: Env, amount: int) {
    exists steps, o, v, w :: WonLate(env, steps, o, v, w) && o.signed.value.instruction.amount == amount
  }

  lemma {:induction false} BlocksMeetTheMinimum(env: Env, steps: seq<Step>, id: Hash)
    requires id in Exec(env, steps).book.rfqs
    ensures Exec(env, steps).book.rfqs[id].terms.amount >= env.cfg.minBlock
  {
    if steps != [] {
      var before, step := steps[..|steps| - 1], steps[|steps| - 1];
      var s := Exec(env, before);
      if !step.Intake? {
        OnlyCommitWrites(env, s, step);
      }
      if id in s.book.rfqs {
        BlocksMeetTheMinimum(env, before, id);
      }
    }
  }

  // ---- a run, for any policy that admits blocks below 100 ----

  function DeskWith(cfg: Config): Env {
    Desk().(cfg := cfg)
  }

  function Ask(cfg: Config, amount: Uint64): Terms {
    Terms(RfqId(), Taker(), amount, 900, [0x72], 0, Seconds(60), Seconds(900))
  }

  function Late(cfg: Config, amount: Uint64): Quote {
    Quote(RfqId(), Maker(), 1_000, amount, 1, Seconds(60), 1)
  }

  function Prices(cfg: Config, amount: Uint64): Chain.CacheState {
    var funds: map<Address, Uint64> := map[Taker() := amount];
    Chain.CacheState(Some(1_000), Some(Seconds(60)), map[], funds)
  }

  function Alone(q: Quote): map<Address, Quote> {
    map[Maker() := q]
  }

  ghost function LateEvidence(cfg: Config, amount: Uint64): Evidence {
    Evidence({}, SettingFor(DeskWith(cfg), Ask(cfg, amount), Chain.SnapshotOf(Prices(cfg, amount), 60, Taker(), {}, Seconds(60)), Seconds(60)),
             Alone(Late(cfg, amount)), [Maker()], 1)
  }

  lemma BandHoldsMid(mid: int, bandBips: Uint64)
    requires mid > 0
    ensures InBand(mid, mid, bandBips)
  {
    assert mid * (10_000 - bandBips) == mid * 10_000 - mid * bandBips;
    assert mid * (10_000 + bandBips) == mid * 10_000 + mid * bandBips;
  }

  lemma LateQuoteWins(cfg: Config, amount: Uint64)
    requires amount < 100 && 0 < Seconds(cfg.quoteTtlSec)
    ensures var ev := LateEvidence(cfg, amount);
            Orderly(ev) && Verdict(ev) == Ok(Chosen(Late(cfg, amount), multiset{})) &&
            ev.setting.now >= ev.setting.terms.windowEndsAt
  {
    var ev := LateEvidence(cfg, amount);
    var s, q := ev.setting, Late(cfg, amount);
    assert Fill(1)[0] != Fill(3)[0];
    assert Alone(q).Keys == {Maker()};
    BandHoldsMid(1_000, cfg.bandBips);
    var quotes := InOrder(ev.byMaker, ev.order);
    assert quotes == [q] && quotes[..0] == [];
    assert s.Priced() && s.TakerFunded() && s.Classify(q).None?;
    var classes := Classes(s, quotes);
    assert classes == [None] && classes[..0] == [];
    assert Count(classes) == Count(classes[..0]) == multiset{};
    assert Survivors(s, quotes) == Survivors(s, []) + [q];
  }

  lemma LateCallBegins(cfg: Config, amount: Uint64) returns (t: State)
    requires cfg.minBlock <= amount
    ensures Reachable(DeskWith(cfg), t) && t.lives == map[RfqId() := 1] && t.taken == []
    ensures t.book == BookState(map[RfqId() := RFQ(Ask(cfg, amount), None)], map[RfqId() := Alone(Late(cfg, amount))], 1)
    ensures t.calls == map[0 := Listed(RfqId(), Taker(), {})]
  {
    var env := DeskWith(cfg);
    var ask := Intake(Add(RfqId(), Taker(), amount, Some(900), [0x72], 0, 60, 900));
    var offer := Intake(Submit(RfqId(), Maker(), 1_000, amount, 1, Seconds(60)));
    assert Exec(env, []) == START;
    var s1 := Next(env, START, ask);
    StepReaches(env, START, ask);
    var s2 := Next(env, s1, Begin(0, RfqId()));
    StepReaches(env, s1, Begin(0, RfqId()));
    t := Next(env, s2, offer);
    StepReaches(env, s2, offer);
    var none: map<Address, Quote> := map[];
    assert QuotesOn(s1.book, RfqId()) == none && none.Keys == {};
    assert none[Maker() := Late(cfg, amount)] == Alone(Late(cfg, amount));
  }

  lemma LateCallHolds(cfg: Config, amount: Uint64) returns (t: State)
    requires cfg.minBlock <= amount
    ensures Reachable(DeskWith(cfg), t) && t.book.rfqs == map[RfqId() := RFQ(Ask(cfg, amount), None)]
    ensures t.calls == map[0 := Holding(LateEvidence(cfg, amount))] && t.taken == [LateEvidence(cfg, amount)]
  {
    var env := DeskWith(cfg);
    var s := LateCallBegins(cfg, amount);
    var s1 := Next(env, s, ReadChain(0, Prices(cfg, amount), 60, Seconds(60)));
    StepReaches(env, s, ReadChain(0, Prices(cfg, amount), 60, Seconds(60)));
    var s2 := Next(env, s1, CheckCache(0));
    StepReaches(env, s1, CheckCache(0));
    t := Next(env, s2, TakeBook(0, [Maker()]));
    StepReaches(env, s2, TakeBook(0, [Maker()]));
    assert Alone(Late(cfg, amount)).Keys == {Maker()};
    assert IsOrder([Maker()], QuotesOn(s2.book, RfqId()).Keys);
  }

  lemma LateAnswer(cfg: Config, amount: Uint64) returns (o: Outcome)
    ensures Finish(DeskWith(cfg), OutcomeOf(Digest, LateEvidence(cfg, amount).setting, Chosen(Late(cfg, amount), multiset{})), Some(Signature())) == Ok(o)
    ensures o.Matched?
  {
    var s := LateEvidence(cfg, amount).setting;
    WireRoundTrip(Digest, InstructionFor(s, Late(cfg, amount)));
    o := Finish(DeskWith(cfg), OutcomeOf(Digest, s, Chosen(Late(cfg, amount), multiset{})), Some(Signature())).value;
  }

  lemma LateCallCommits(cfg: Config, amount: Uint64) returns (t: State, o: Outcome)
    requires cfg.minBlock <= amount < 100 && 0 < Seconds(cfg.quoteTtlSec)
    ensures Reachable(DeskWith(cfg), t) && Given(t, RfqId(), o) && o.Matched?
    ensures t.taken == [LateEvidence(cfg, amount)]
  {
    var env, ev := DeskWith(cfg), LateEvidence(cfg, amount);
    var held := LateCallHolds(cfg, amount);
    LateQuoteWins(cfg, amount);
    var decided := CallDecides(env, held, 0, ev, Chosen(Late(cfg, amount), multiset{}));
    o := LateAnswer(cfg, amount);
    t := CallCommits(env, decided, 0, Some(Signature()), o);
  }

  /** A match whose only evidence lists no maker was won late. */
  lemma UnlistedWinsLate(env: Env, steps: seq<Step>, o: Outcome, ev: Evidence)
    requires Given(Exec(env, steps), ev.setting.terms.id, o) && o.Matched?
    requires Exec(env, steps).taken == [ev] && ev.makers == {}
    ensures CanWinLate(env, ev.setting.terms.amount)
  {
    GivenIsProven(env, steps, ev.setting.terms.id, o);
    assert Proves(env, ev, o);
    ExecRecorded(env, steps);
    assert ev in Exec(env, steps).taken;
    assert EvidenceRecorded(env, steps, ev);
    var v :| TakenIn(env, steps, v, ev) && v.id == ev.setting.terms.id;
    ProvenIsEarned(env, steps, ev, o, v);
    var w :| Earned(env, steps, o, v, w);
    assert WonLate(env, steps, o, v, w);
  }

  /** Below 100 raw units, a run in which the winner arrives after the call began. */
  lemma SmallBlocksAdmitLateMakers(cfg: Config, amount: Uint64)
    requires cfg.minBlock <= amount < 100 && 0 < Seconds(cfg.quoteTtlSec)
    ensures CanWinLate(DeskWith(cfg), amount)
  {
    var t, o := LateCallCommits(cfg, amount);
    var steps :| Exec(DeskWith(cfg), steps) == t;
    UnlistedWinsLate(DeskWith(cfg), steps, o, LateEvidence(cfg, amount));
  }

  /** The cache answers for exactly the makers it was asked about. */
  lemma ReadingListsBonds(env: Env, steps: seq<Step>, v: Visit)
    requires Took(env, steps, v)
    ensures View(env, steps, v).snap.freeBond.Keys == Listing(env, steps, v)
  {
  }

  lemma LateIsUnbonded(env: Env, steps: seq<Step>, v: Visit, w: Quote)
    requires Took(env, steps, v) && BestSeen(env, steps, v, w) && w.maker !in Listing(env, steps, v)
    ensures View(env, steps, v).terms.amount < 100
  {
    ReadingListsBonds(env, steps, v);
    FillsBonded(View(env, steps, v), w);
  }

  lemma VisitMeetsTheMinimum(env: Env, steps: seq<Step>, v: Visit)
    requires Took(env, steps, v)
    ensures View(env, steps, v).terms.amount >= env.cfg.minBlock
  {
    BlocksMeetTheMinimum(env, steps[..v.take], v.id);
  }

  /** On no desk does a late maker win a block of 100 raw units or more. */
  lemma LateWinsAreSmall(env: Env, amount: int)
    requires CanWinLate(env, amount)
    ensures env.cfg.minBlock <= amount < 100
  {
    var steps, o, v, w :| WonLate(env, steps, o, v, w) && o.signed.value.instruction.amount == amount;
    PaysItsWinner(View(env, steps, v), w);
    VisitMeetsTheMinimum(env, steps, v);
    LateIsUnbonded(env, steps, v, w);
  }

  /** Under any policy, a maker who arrives after the call began can win exactly the admitted blocks below 100. */
  lemma LateMakersWinExactly(cfg: Config, amount: Uint64)
    requires 0 < Seconds(cfg.quoteTtlSec)
    ensures CanWinLate(DeskWith(cfg), amount) <==> cfg.minBlock <= amount < 100
  {
    if cfg.minBlock <= amount < 100 {
      SmallBlocksAdmitLateMakers(cfg, amount);
    }
    if CanWinLate(DeskWith(cfg), amount) {
      LateWinsAreSmall(DeskWith(cfg), amount);
    }
  }
}
