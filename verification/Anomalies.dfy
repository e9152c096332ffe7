/** Runs of the match protocol on which ownership and idempotence fail, so neither hypothesis can go. */
module Anomalies {
  import opened Bytes
  import opened Results
  import opened Matching
  import opened Book
  import opened MatchEngine
  import opened Protocol
  import opened Lifetimes
  import opened Lives
  import Chain = ChainCache

  function Fill(b: Byte): Address { seq(20, i => b) }

  function RfqId(): Hash { seq(32, i => 7) }

  function Taker(): Address { Fill(1) }

  function Other(): Address { Fill(2) }

  function Maker(): Address { Fill(3) }

  function Signature(): seq<Byte> { seq(65, i => 0) }

  function Digest(message: seq<Byte>): Hash { RfqId() }

  function Signer(digest: Hash, sig: seq<Byte>): Option<Address> { Some(Fill(8)) }

  /** A desk with the deployed band and quote lifetime, small blocks, and a recovery that always succeeds. */
  function Desk(): Env {
    Env(Config(1, 100, 600), Fill(9), 114, Digest, Signer)
  }

  function Funded(): Chain.CacheState {
    var bonds: map<Address, Uint64> := map[Maker() := 1_000_000];
    var funds: map<Address, Uint64> := map[Taker() := 1_000_000];
    Chain.CacheState(Some(1_000), Some(0), bonds, funds)
  }

  // ---- moving through reachable states, on any desk ----

  ghost predicate Reachable(env: Env, s: State) {
    exists steps :: Exec(env, steps) == s
  }

  lemma StepReaches(env: Env, s: State, step: Step)
    requires Reachable(env, s)
    ensures Reachable(env, Next(env, s, step))
  {
    var steps :| Exec(env, steps) == s;
    assert (steps + [step])[..|steps|] == steps;
    assert Exec(env, steps + [step]) == Next(env, s, step);
  }

  ghost function EvidenceOf(env: Env, b: BookState, number: nat, id: Hash, cache: Chain.CacheState, now: int, order: seq<Address>)
    : Evidence
    requires id in b.rfqs
  {
    var terms, byMaker := b.rfqs[id].terms, QuotesOn(b, id);
    Evidence(byMaker.Keys, SettingFor(env, terms, Chain.SnapshotOf(cache, 60, terms.taker, byMaker.Keys, now), now),
             byMaker, order, number)
  }

  /** A fresh call, left to itself, misses the cache with the participants and chain state it found. */
  lemma CallMisses(env: Env, s: State, call: nat, id: Hash, cache: Chain.CacheState, now: int) returns (t: State)
    requires Reachable(env, s) && call !in s.calls && id in s.book.rfqs && s.book.rfqs[id].cached.None?
    ensures Reachable(env, t) && t.book == s.book && t.lives == s.lives
    ensures var makers := QuotesOn(s.book, id).Keys;
            var snap := Chain.SnapshotOf(cache, 60, s.book.rfqs[id].terms.taker, makers, now);
            t.calls == s.calls[call := Missed(id, makers, snap, now)]
  {
    var s1 := Next(env, s, Begin(call, id));
    StepReaches(env, s, Begin(call, id));
    var s2 := Next(env, s1, ReadChain(call, cache, 60, now));
    StepReaches(env, s1, ReadChain(call, cache, 60, now));
    t := Next(env, s2, CheckCache(call));
    StepReaches(env, s2, CheckCache(call));
  }

  /** Then it holds the evidence the state gives it. */
  lemma CallHolds(env: Env, s: State, call: nat, id: Hash, cache: Chain.CacheState, now: int, order: seq<Address>)
    returns (t: State)
    requires Reachable(env, s) && call !in s.calls && id in s.book.rfqs && s.book.rfqs[id].cached.None?
    requires IsOrder(order, QuotesOn(s.book, id).Keys)
    ensures Reachable(env, t) && t.book == s.book && t.lives == s.lives
    ensures t.calls == s.calls[call := Holding(EvidenceOf(env, s.book, NumberOf(s, id), id, cache, now, order))]
  {
    var missed := CallMisses(env, s, call, id, cache, now);
    t := Next(env, missed, TakeBook(call, order));
    StepReaches(env, missed, TakeBook(call, order));
  }

  lemma ComputeMoves(env: Env, s: State, call: nat, ev: Evidence, d: Decision)
    requires Orderly(ev) && Verdict(ev) == Ok(d) && ev.setting.now >= ev.setting.terms.windowEndsAt
    ensures ComputeStep(env, s, call, ev) == Move(s, call, Decided(ev, OutcomeOf(env.keccak, ev.setting, d)))
  {
  }

  lemma CallDecides(env: Env, s: State, call: nat, ev: Evidence, d: Decision) returns (t: State)
    requires Reachable(env, s) && call in s.calls && s.calls[call] == Holding(ev)
    requires Orderly(ev) && Verdict(ev) == Ok(d) && ev.setting.now >= ev.setting.terms.windowEndsAt
    ensures Reachable(env, t) && t.book == s.book && t.lives == s.lives && t.taken == s.taken
    ensures t.calls == s.calls[call := Decided(ev, OutcomeOf(env.keccak, ev.setting, d))]
  {
    t := Next(env, s, Compute(call));
    StepReaches(env, s, Compute(call));
    ComputeMoves(env, s, call, ev, d);
  }

  /** Both together: a fresh call comes to the decision its evidence leads to. */
  lemma CallRuns(env: Env, s: State, call: nat, id: Hash, cache: Chain.CacheState, now: int, order: seq<Address>,
                 d: Decision) returns (t: State)
    requires Reachable(env, s) && call !in s.calls && id in s.book.rfqs && s.book.rfqs[id].cached.None?
    requires IsOrder(order, QuotesOn(s.book, id).Keys)
    requires var ev := EvidenceOf(env, s.book, NumberOf(s, id), id, cache, now, order);
             Orderly(ev) && Verdict(ev) == Ok(d) && ev.setting.now >= ev.setting.terms.windowEndsAt
    ensures Reachable(env, t) && t.book == s.book && t.lives == s.lives
    ensures var ev := EvidenceOf(env, s.book, NumberOf(s, id), id, cache, now, order);
            t.calls == s.calls[call := Decided(ev, OutcomeOf(env.keccak, ev.setting, d))]
  {
    var held := CallHolds(env, s, call, id, cache, now, order);
    t := CallDecides(env, held, call, EvidenceOf(env, s.book, NumberOf(s, id), id, cache, now, order), d);
  }

  lemma CallCommits(env: Env, s: State, call: nat, reply: Option<seq<Byte>>, o: Outcome) returns (t: State)
    requires Reachable(env, s) && call in s.calls && s.calls[call].Decided?
    requires Finish(env, s.calls[call].outcome, reply) == Ok(o)
    ensures Reachable(env, t) && t.taken == s.taken && t.lives == s.lives
    ensures var ev := s.calls[call].ev;
            t.book == CacheOutcome(s.book, ev.setting.terms.id, o) &&
            t.calls == s.calls[call := Done(ev.setting.terms.id, Some(LifeOf(ev)), Ok(o))]
  {
    var s1 := Next(env, s, Sign(call, reply));
    StepReaches(env, s, Sign(call, reply));
    assert s1 == Move(s, call, Ready(s.calls[call].ev, o));
    t := Next(env, s1, Commit(call));
    StepReaches(env, s1, Commit(call));
    assert t == CommitStep(s1, call, s1.calls[call]);
  }

  // ---- one RFQ, one maker ----

  function TermsFor(taker: Address, now: int): Terms {
    Terms(RfqId(), taker, 1_000, 900, [0x72], now, now + Seconds(60), now + Seconds(900))
  }

  function FirstLife(): Life { Life(1, TermsFor(Taker(), 0)) }

  function AddFor(taker: Address, now: int): Step {
    Intake(Add(RfqId(), taker, 1_000, Some(900), [0x72], now, 60, 900))
  }

  function QuoteAt(price: int, nonce: Uint64): Step {
    Intake(Submit(RfqId(), Maker(), price, 1_000, nonce, 0))
  }

  function Quoted(price: int, nonce: Uint64): Quote {
    Quote(RfqId(), Maker(), price, 1_000, nonce, 0, nonce)
  }

  function Sole(q: Quote): map<Address, Quote> {
    map[Maker() := q]
  }

  function Holdings(q: Quote): BookState {
    BookState(map[RfqId() := RFQ(TermsFor(Taker(), 0), None)], map[RfqId() := Sole(q)], q.seqNo)
  }

  ghost function EvidenceFor(q: Quote): Evidence {
    EvidenceOf(Desk(), Holdings(q), 1, RfqId(), Funded(), Seconds(60), [Maker()])
  }

  ghost predicate Good(q: Quote) {
    q.maker == Maker() && q.rfqId == RfqId() && q.size == 1_000 && q.receivedAt == 0 && 990 <= q.price <= 1_010
  }

  lemma GoodQuoteWins(q: Quote)
    requires Good(q)
    ensures Orderly(EvidenceFor(q)) && Verdict(EvidenceFor(q)) == Ok(Chosen(q, multiset{}))
    ensures EvidenceFor(q).setting.now >= EvidenceFor(q).setting.terms.windowEndsAt
    ensures EvidenceFor(q).setting.terms == TermsFor(Taker(), 0)
  {
    var ev := EvidenceFor(q);
    var s := ev.setting;
    assert Fill(1)[0] != Fill(3)[0];
    assert Sole(q).Keys == {Maker()};
    var quotes := InOrder(ev.byMaker, ev.order);
    assert quotes == [q] && quotes[..0] == [];
    assert s.Priced() && s.TakerFunded();
    assert s.Classify(q).None?;
    var classes := Classes(s, quotes);
    assert classes == [None] && classes[..0] == [];
    assert Count(classes) == Count(classes[..0]) == multiset{};
    assert Survivors(s, quotes) == Survivors(s, []) + [q];
  }

  ghost function DecidedFor(q: Quote): Call {
    Decided(EvidenceFor(q), OutcomeOf(Desk().keccak, EvidenceFor(q).setting, Chosen(q, multiset{})))
  }

  /** A call on a book that holds just q decides to pay q. */
  lemma CallPays(s: State, call: nat, q: Quote) returns (t: State)
    requires Reachable(Desk(), s) && call !in s.calls && s.book == Holdings(q) && NumberOf(s, RfqId()) == 1 && Good(q)
    ensures Reachable(Desk(), t) && t.book == s.book && t.lives == s.lives
    ensures t.calls == s.calls[call := DecidedFor(q)]
  {
    GoodQuoteWins(q);
    assert QuotesOn(s.book, RfqId()) == Sole(q) && Sole(q).Keys == {Maker()};
    t := CallRuns(Desk(), s, call, RfqId(), Funded(), Seconds(60), [Maker()], Chosen(q, multiset{}));
  }

  ghost predicate Pays(o: Outcome, price: int) {
    o.Matched? && o.signed.Some? && o.signed.value.instruction.taker == Taker() &&
    o.signed.value.instruction.price == price
  }

  lemma SignedAnswer(q: Quote) returns (o: Outcome)
    ensures Finish(Desk(), DecidedFor(q).outcome, Some(Signature())) == Ok(o) && Pays(o, q.price)
  {
    var s := EvidenceFor(q).setting;
    WireRoundTrip(Digest, InstructionFor(s, q));
    FinishedCarriesDecision(Desk(), s, Chosen(q, multiset{}), Some(Signature()));
    o := Finish(Desk(), DecidedFor(q).outcome, Some(Signature())).value;
  }

  lemma CallIsPaid(s: State, call: nat, q: Quote) returns (t: State, o: Outcome)
    requires Reachable(Desk(), s) && call in s.calls && s.calls[call] == DecidedFor(q)
    ensures Reachable(Desk(), t) && Pays(o, q.price) && t.book == CacheOutcome(s.book, RfqId(), o)
    ensures t.calls == s.calls[call := Done(RfqId(), Some(FirstLife()), Ok(o))]
  {
    o := SignedAnswer(q);
    t := CallCommits(Desk(), s, call, Some(Signature()), o);
  }

  lemma FirstQuoteRests() returns (t: State)
    ensures Reachable(Desk(), t) && t.book == Holdings(Quoted(1_000, 1)) && t.calls == map[] && NumberOf(t, RfqId()) == 1
  {
    assert Exec(Desk(), []) == START;
    var s := Next(Desk(), START, AddFor(Taker(), 0));
    StepReaches(Desk(), START, AddFor(Taker(), 0));
    t := Next(Desk(), s, QuoteAt(1_000, 1));
    StepReaches(Desk(), s, QuoteAt(1_000, 1));
  }

  lemma SecondQuoteRests(s: State) returns (t: State)
    requires Reachable(Desk(), s) && s.book == Holdings(Quoted(1_000, 1))
    ensures Reachable(Desk(), t) && t.book == Holdings(Quoted(1_005, 2))
    ensures t.calls == s.calls && t.lives == s.lives
  {
    t := Next(Desk(), s, QuoteAt(1_005, 2));
    StepReaches(Desk(), s, QuoteAt(1_005, 2));
    var resting: map<Address, Quote> := Sole(Quoted(1_000, 1))[Maker() := Quoted(1_005, 2)];
    assert resting == Sole(Quoted(1_005, 2));
  }

  lemma TwoCallsDecide() returns (t: State)
    ensures Reachable(Desk(), t) && t.book == Holdings(Quoted(1_005, 2))
    ensures 0 in t.calls && t.calls[0] == DecidedFor(Quoted(1_000, 1))
    ensures 1 in t.calls && t.calls[1] == DecidedFor(Quoted(1_005, 2))
  {
    var a := FirstQuoteRests();
    var b := CallPays(a, 0, Quoted(1_000, 1));
    var c := SecondQuoteRests(b);
    t := CallPays(c, 1, Quoted(1_005, 2));
  }

  /** Two calls have returned signed matches of one life of the RFQ at different prices. */
  ghost predicate ToldApart(s: State, j: nat, k: nat, l: Life) {
    j in s.calls && k in s.calls && Tells(s.calls[j], l) && Tells(s.calls[k], l) &&
    var o, p := s.calls[j].result.value, s.calls[k].result.value;
    o.Matched? && p.Matched? && o.signed.Some? && p.signed.Some? &&
    o.signed.value.instruction.price != p.signed.value.instruction.price
  }

  lemma PaidApart(s: State, l: Life, first: Outcome, second: Outcome)
    requires 0 in s.calls && s.calls[0] == Done(RfqId(), Some(l), Ok(first)) && Pays(first, 1_000)
    requires 1 in s.calls && s.calls[1] == Done(RfqId(), Some(l), Ok(second)) && Pays(second, 1_005)
    ensures ToldApart(s, 0, 1, l)
  {
  }

  lemma FirstIsPaid() returns (t: State, first: Outcome)
    ensures Reachable(Desk(), t) && t.book == CacheOutcome(Holdings(Quoted(1_005, 2)), RfqId(), first) && Pays(first, 1_000)
    ensures 0 in t.calls && t.calls[0] == Done(RfqId(), Some(FirstLife()), Ok(first))
    ensures 1 in t.calls && t.calls[1] == DecidedFor(Quoted(1_005, 2))
  {
    var d := TwoCallsDecide();
    t, first := CallIsPaid(d, 0, Quoted(1_000, 1));
  }

  lemma SecondIsPaid(s: State, first: Outcome) returns (t: State, second: Outcome)
    requires Reachable(Desk(), s) && 0 in s.calls && s.calls[0] == Done(RfqId(), Some(FirstLife()), Ok(first))
    requires 1 in s.calls && s.calls[1] == DecidedFor(Quoted(1_005, 2)) && Pays(first, 1_000)
    ensures Reachable(Desk(), t) && t.book == CacheOutcome(s.book, RfqId(), second) && ToldApart(t, 0, 1, FirstLife())
  {
    t, second := CallIsPaid(s, 1, Quoted(1_005, 2));
    PaidApart(t, FirstLife(), first, second);
  }

  /** The maker re-quotes between two overlapping calls: one RFQ, two different signed matches. */
  lemma OverlapSignsTwoMatches()
    ensures exists s, l :: Reachable(Desk(), s) && ToldApart(s, 0, 1, l) && l.terms.id in s.book.rfqs
  {
    var e, first := FirstIsPaid();
    var f, second := SecondIsPaid(e, first);
    assert FirstLife().terms.id == RfqId();
  }

  lemma SweptAway(s: State, o: Outcome) returns (t: State)
    requires Reachable(Desk(), s) && s.book == CacheOutcome(Holdings(Quoted(1_005, 2)), RfqId(), o)
    ensures Reachable(Desk(), t) && t.calls == s.calls && t.book.rfqs == map[]
  {
    var later := Seconds(900) + 1;
    t := Next(Desk(), s, Intake(Sweep(later)));
    StepReaches(Desk(), s, Intake(Sweep(later)));
    assert RfqId() in Expired(s.book, later);
  }

  /** With a sweep between the two commits the second finds nothing cached, and the RFQ still has two matches. */
  lemma SweepHidesTheSecondMatch()
    ensures exists s, l :: Reachable(Desk(), s) && ToldApart(s, 0, 1, l) && l.terms.id !in s.book.rfqs
  {
    var e, first := FirstIsPaid();
    var f := SweptAway(e, first);
    var g, second := SecondIsPaid(f, first);
    assert FirstLife().terms.id == RfqId();
  }

  lemma TakenOverByAnother(s: State) returns (t: State)
    requires Reachable(Desk(), s) && s.book == Holdings(Quoted(1_000, 1))
    ensures Reachable(Desk(), t) && t.calls == s.calls
    ensures RfqId() in t.book.rfqs && t.book.rfqs[RfqId()].terms.taker == Other()
  {
    var later := Seconds(900) + 1;
    var c := Next(Desk(), s, Intake(Sweep(later)));
    StepReaches(Desk(), s, Intake(Sweep(later)));
    assert RfqId() in Expired(s.book, later);
    t := Next(Desk(), c, AddFor(Other(), later));
    StepReaches(Desk(), c, AddFor(Other(), later));
  }

  /** The RFQ carries a signed match that names someone else's RFQ. */
  ghost predicate Misfiled(s: State) {
    RfqId() in s.book.rfqs && s.book.rfqs[RfqId()].cached.Some? &&
    !Names(s.book.rfqs[RfqId()].cached.value, s.book.rfqs[RfqId()].terms)
  }

  /** A match paid to the first taker does not name an RFQ of the second. */
  lemma PaidMisfiles(s: State, o: Outcome)
    requires RfqId() in s.book.rfqs && s.book.rfqs[RfqId()].terms.taker == Other()
    requires s.book.rfqs[RfqId()].cached == Some(o) && Pays(o, 1_000)
    ensures Misfiled(s)
  {
    assert Taker()[0] != Other()[0];
  }

  lemma MatchOfTheFirstTaker() returns (t: State)
    ensures Reachable(Desk(), t) && 0 in t.calls && t.calls[0] == DecidedFor(Quoted(1_000, 1))
    ensures RfqId() in t.book.rfqs && t.book.rfqs[RfqId()].terms.taker == Other()
  {
    var a := FirstQuoteRests();
    var b := CallPays(a, 0, Quoted(1_000, 1));
    t := TakenOverByAnother(b);
  }

  /** The id is added again, by another taker, while a match on it is in flight. */
  lemma ReaddMisfilesTheMatch()
    ensures exists s :: Reachable(Desk(), s) && Misfiled(s)
  {
    var c := MatchOfTheFirstTaker();
    var d, o := CallIsPaid(c, 0, Quoted(1_000, 1));
    PaidMisfiles(d, o);
  }
}
