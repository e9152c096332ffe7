/** A losing quote that does leave a trace: the claim that none does fails on a two-maker run. */
module Traces {
  import opened Bytes
  import opened Results
  import opened Matching
  import opened Book
  import opened NoTrace
  import Signing

  /** m loses to someone on the RFQ, and the outcome is not the one of the run without him. */
  ghost predicate LeavesTrace(keccak: Signing.Keccak, cfg: Config, commands: seq<Command>, m: Address, s: Setting,
                              id: Hash, a: seq<Address>, b: seq<Address>)
  {
    |commands| < TWO64 && IsOrder(a, QuotesOn(Run(cfg, commands), id).Keys) &&
    IsOrder(b, QuotesOn(Run(cfg, Without(commands, m)), id).Keys) &&
    Loses(s, QuotesOn(Run(cfg, commands), id), a, m) &&
    Decide(s, InOrder(QuotesOn(Run(cfg, commands), id), a)).value.Chosen? &&
    !SameOutcome(keccak, s, Decide(s, InOrder(QuotesOn(Run(cfg, commands), id), a)),
                 s, Decide(s, InOrder(QuotesOn(Run(cfg, Without(commands, m)), id), b)))
  }

  /** A maker whose quote is filtered out loses, on any run. */
  lemma FilteredLoses(cfg: Config, commands: seq<Command>, m: Address, s: Setting, id: Hash, a: seq<Address>)
    requires IsOrder(a, QuotesOn(Run(cfg, commands), id).Keys) && m in QuotesOn(Run(cfg, commands), id)
    requires s.Priced() && s.TakerFunded() && !s.Eligible(QuotesOn(Run(cfg, commands), id)[m])
    ensures Loses(s, QuotesOn(Run(cfg, commands), id), a, m)
  {
    var quotes := QuotesOn(Run(cfg, commands), id);
    RunIsWellFiled(cfg, commands);
    var d := Decide(s, InOrder(quotes, a)).value;
    if d.Chosen? {
      SurvivorsAre(s, InOrder(quotes, a));
      BestOutranksTheRest(Survivors(s, InOrder(quotes, a)));
      OrderHoldsAll(quotes, a);
      assert d.winner in quotes.Values && s.Eligible(d.winner);
    }
  }

  /** So on every run where someone is eligible, a filtered maker leaves a trace. */
  lemma FilteredLeavesTrace(keccak: Signing.Keccak, cfg: Config, commands: seq<Command>, m: Address, k: Address,
                            s: Setting, id: Hash, a: seq<Address>, b: seq<Address>)
    requires |commands| < TWO64 && IsOrder(a, QuotesOn(Run(cfg, commands), id).Keys)
    requires IsOrder(b, QuotesOn(Run(cfg, Without(commands, m)), id).Keys)
    requires s.Priced() && s.TakerFunded()
    requires m in QuotesOn(Run(cfg, commands), id) && !s.Eligible(QuotesOn(Run(cfg, commands), id)[m])
    requires k in QuotesOn(Run(cfg, commands), id) && s.Eligible(QuotesOn(Run(cfg, commands), id)[k])
    ensures LeavesTrace(keccak, cfg, commands, m, s, id, a, b)
  {
    EligibleIsChosenFrom(s, QuotesOn(Run(cfg, commands), id), a, k);
    FilteredLoses(cfg, commands, m, s, id, a);
    LoserLeavesNoTraceExactly(keccak, cfg, commands, m, s, s, id, a, b);
  }

  // ---- the run ----

  function Id(): Hash { seq(32, _ => 7) }

  function Taker(): Address { seq(20, _ => 1) }

  function Policy(): Config { Config(1, 100, 600) }

  function Big(): Address { seq(20, _ => 3) }

  function Small(): Address { seq(20, _ => 4) }

  function Ask(): Command { Add(Id(), Taker(), 1_000, Some(900), [0x72], 0, 60, 900) }

  /** Both quote the same price; the second offers one unit of the thousand asked for. */
  function Offer(maker: Address, size: Uint64): Command { Submit(Id(), maker, 1_000, size, 1, 0) }

  function Offered(maker: Address, size: Uint64, seqNo: Uint64): Quote { Quote(Id(), maker, 1_000, size, 1, 0, seqNo) }

  function Scene(): Setting {
    var bonds: map<Address, Uint64> := map[Big() := 10];
    Setting(Policy(), seq(20, _ => 9), Terms(Id(), Taker(), 1_000, 900, [0x72], 0, Seconds(60), Seconds(900)),
            ChainSnapshot(Some(1_000), 0, bonds, 1_000), Seconds(60))
  }

  lemma WhatRests()
    ensures QuotesOn(Run(Policy(), [Ask(), Offer(Big(), 1_000), Offer(Small(), 1)]), Id()) ==
            map[Big() := Offered(Big(), 1_000, 1), Small() := Offered(Small(), 1, 2)]
    ensures Run(Policy(), [Ask(), Offer(Big(), 1_000), Offer(Small(), 1)]).rfqs == map[Id() := RFQ(Scene().terms, None)]
    ensures QuotesOn(Run(Policy(), [Ask(), Offer(Big(), 1_000)]), Id()) == map[Big() := Offered(Big(), 1_000, 1)]
  {
    assert Big()[0] != Small()[0];
    var none: seq<Command> := [];
    var one, two, all := [Ask()], [Ask(), Offer(Big(), 1_000)], [Ask(), Offer(Big(), 1_000), Offer(Small(), 1)];
    assert one[..0] == none && two[..1] == one && all[..2] == two;
    var empty: map<Address, Quote> := map[];
    assert QuotesOn(Run(Policy(), one), Id()) == empty;
    assert empty[Big() := Offered(Big(), 1_000, 1)] == map[Big() := Offered(Big(), 1_000, 1)];
  }

  lemma WithoutSmall()
    ensures Without([Ask(), Offer(Big(), 1_000), Offer(Small(), 1)], Small()) == [Ask(), Offer(Big(), 1_000)]
  {
    assert Big()[0] != Small()[0];
    var none: seq<Command> := [];
    var one, two, all := [Ask()], [Ask(), Offer(Big(), 1_000)], [Ask(), Offer(Big(), 1_000), Offer(Small(), 1)];
    assert one[..0] == none && two[..1] == one && all[..2] == two;
  }

  lemma SceneFilters()
    ensures Scene().Priced() && Scene().TakerFunded()
    ensures Scene().Eligible(Offered(Big(), 1_000, 1)) && !Scene().Eligible(Offered(Small(), 1, 2))
  {
    assert Big()[0] != Taker()[0] && Small()[0] != Taker()[0];
  }

  lemma TwoOrders()
    ensures Big() != Small() && IsOrder([Big(), Small()], {Big(), Small()}) && IsOrder([Big()], {Big()})
  {
    assert Big()[0] != Small()[0];
  }

  /** The undersized quote loses to the full one, and the match still counts it. */
  lemma FilteredLoserShows(keccak: Signing.Keccak)
    ensures exists commands, m, a, b :: LeavesTrace(keccak, Policy(), commands, m, Scene(), Id(), a, b) &&
              Id() in Run(Policy(), commands).rfqs && Run(Policy(), commands).rfqs[Id()].terms == Scene().terms
  {
    var commands := [Ask(), Offer(Big(), 1_000), Offer(Small(), 1)];
    WhatRests();
    WithoutSmall();
    SceneFilters();
    TwoOrders();
    var quotes := QuotesOn(Run(Policy(), commands), Id());
    assert quotes.Keys == {Big(), Small()};
    FilteredLeavesTrace(keccak, Policy(), commands, Small(), Big(), Scene(), Id(), [Big(), Small()], [Big()]);
  }
}
