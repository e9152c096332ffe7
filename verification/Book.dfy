/** The sealed book: RFQs, resting quotes, the intake counter and the outcome cache (matcher/book.go). */
module Book {
  import opened Bytes
  import opened Results
  import opened Matching

  datatype RFQ = RFQ(terms: Terms, cached: Option<Outcome>)

  datatype BookState = BookState(
    rfqs: map<Hash, RFQ>, quotes: map<Hash, map<Address, Quote>>, nextSeq: Uint64)

  const EMPTY_BOOK := BookState(map[], map[], 0)

  datatype AddError = BelowMinBlock | EmptyXrplAddress | LimitNotPositive | RfqExists
  datatype UpsertError = UnknownRfq | StaleNonce

  // ---- what each operation does, on values ----

  function AddRfq(b: BookState, cfg: Config, id: Hash, taker: Address, amount: Uint64, limit: Option<int>,
                  xrpl: seq<Byte>, now: int, windowSec: int, ttlSec: int): (BookState, Result<RFQ, AddError>)
  {
    if amount < cfg.minBlock then (b, Err(BelowMinBlock))
    else if xrpl == [] then (b, Err(EmptyXrplAddress))
    else if limit.None? || limit.value <= 0 then (b, Err(LimitNotPositive))
    else if id in b.rfqs then (b, Err(RfqExists))
    else
      var terms := Terms(id, taker, amount, limit.value, xrpl, now, now + Seconds(windowSec), now + Seconds(ttlSec));
      (b.(rfqs := b.rfqs[id := RFQ(terms, None)], quotes := b.quotes[id := map[]]), Ok(RFQ(terms, None)))
  }

  function Upsert(b: BookState, rfqId: Hash, maker: Address, price: int, size: Uint64, nonce: Uint64, now: int)
    : (BookState, Result<bool, UpsertError>)
  {
    if rfqId !in b.quotes then (b, Err(UnknownRfq))
    else
      var byMaker := b.quotes[rfqId];
      if maker in byMaker && nonce <= byMaker[maker].nonce then (b, Err(StaleNonce))
      else
        var seqNo := (b.nextSeq + 1) % TWO64;
        var q := Quote(rfqId, maker, price, size, nonce, now, seqNo);
        var resting: map<Address, Quote> := byMaker[maker := q];
        (b.(quotes := b.quotes[rfqId := resting], nextSeq := seqNo), Ok(maker in byMaker))
  }

  function CacheOutcome(b: BookState, id: Hash, outcome: Outcome): BookState {
    if id in b.rfqs then b.(rfqs := b.rfqs[id := b.rfqs[id].(cached := Some(outcome))]) else b
  }

  function Expired(b: BookState, now: int): set<Hash> {
    set id | id in b.rfqs && now > b.rfqs[id].terms.expiresAt
  }

  function Collect(b: BookState, now: int): BookState {
    b.(rfqs := b.rfqs - Expired(b, now), quotes := b.quotes - Expired(b, now))
  }

  function CachedFor(b: BookState, id: Hash): Option<Outcome> {
    if id in b.rfqs then b.rfqs[id].cached else None
  }

  function QuotesOn(b: BookState, id: Hash): map<Address, Quote> {
    if id in b.quotes then b.quotes[id] else map[]
  }

  // ---- the order Go's map yields the quotes in ----

  ghost predicate IsOrder(order: seq<Address>, makers: set<Address>) {
    (forall m :: m in order <==> m in makers) &&
    (forall i, j | 0 <= i < j < |order| :: order[i] != order[j])
  }

  function InOrder(byMaker: map<Address, Quote>, order: seq<Address>): seq<Quote>
    requires forall m | m in order :: m in byMaker
  {
    seq(|order|, i requires 0 <= i < |order| => byMaker[order[i]])
  }

  // ---- the class ----

  class SealedBook {
    var rfqs: map<Hash, RFQ>
    var quotes: map<Hash, map<Address, Quote>>
    var nextSeq: Uint64
    const epoch: Uint64

    function State(): BookState
      reads this
    {
      BookState(rfqs, quotes, nextSeq)
    }

    constructor (epoch: Uint64)
      ensures State() == EMPTY_BOOK && this.epoch == epoch
    {
      rfqs, quotes, nextSeq := map[], map[], 0;
      this.epoch := epoch;
    }

    method AddRFQ(cfg: Config, id: Hash, taker: Address, amount: Uint64, limit: Option<int>, xrpl: seq<Byte>,
                  now: int, windowSec: int, ttlSec: int) returns (r: Result<RFQ, AddError>)
      modifies this
      ensures (State(), r) == AddRfq(old(State()), cfg, id, taker, amount, limit, xrpl, now, windowSec, ttlSec)
    {
      if amount < cfg.minBlock {
        return Err(BelowMinBlock);
      }
      if xrpl == [] {
        return Err(EmptyXrplAddress);
      }
      if limit.None? || limit.value <= 0 {
        return Err(LimitNotPositive);
      }
      if id in rfqs {
        return Err(RfqExists);
      }
      var rfq := RFQ(Terms(id, taker, amount, limit.value, xrpl, now, now + Seconds(windowSec), now + Seconds(ttlSec)),
                     None);
      rfqs := rfqs[id := rfq];
      quotes := quotes[id := map[]];
      return Ok(rfq);
    }

    method UpsertQuote(rfqId: Hash, maker: Address, price: int, size: Uint64, nonce: Uint64, now: int)
      returns (r: Result<bool, UpsertError>)
      modifies this
      ensures (State(), r) == Upsert(old(State()), rfqId, maker, price, size, nonce, now)
    {
      if rfqId !in quotes {
        return Err(UnknownRfq);
      }
      var byMaker: map<Address, Quote> := quotes[rfqId];
      var has := maker in byMaker;
      if has && nonce <= byMaker[maker].nonce {
        return Err(StaleNonce);
      }
      nextSeq := (nextSeq + 1) % TWO64;
      byMaker := byMaker[maker := Quote(rfqId, maker, price, size, nonce, now, nextSeq)];
      quotes := quotes[rfqId := byMaker];
      return Ok(has);
    }

    /** The RFQ and its quotes, in whatever order the map gives them out. */
    method SnapshotForMatch(id: Hash) returns (r: Option<(RFQ, seq<Quote>)>)
      ensures r.None? <==> id !in rfqs
      ensures r.Some? ==> r.value.0 == rfqs[id]
      ensures r.Some? ==> exists order :: IsOrder(order, QuotesOn(State(), id).Keys) &&
                                          r.value.1 == InOrder(QuotesOn(State(), id), order)
    {
      if id !in rfqs {
        return None;
      }
      var byMaker := QuotesOn(State(), id);
      var out: seq<Quote> := [];
      ghost var order: seq<Address> := [];
      var rest := byMaker.Keys;
      while rest != {}
        invariant rest <= byMaker.Keys
        invariant IsOrder(order, byMaker.Keys - rest)
        invariant out == InOrder(byMaker, order)
      {
        var maker :| maker in rest;
        out := out + [byMaker[maker]];
        order := order + [maker];
        rest := rest - {maker};
      }
      return Some((rfqs[id], out));
    }

    method MarkMatched(id: Hash, outcome: Outcome)
      modifies this
      ensures State() == CacheOutcome(old(State()), id, outcome)
    {
      if id in rfqs {
        rfqs := rfqs[id := rfqs[id].(cached := Some(outcome))];
      }
    }

    /** The taker, and the makers resting a quote, in whatever order the map gives them out. */
    method Participants(id: Hash) returns (r: Option<(Address, seq<Address>)>)
      ensures r.None? <==> id !in rfqs
      ensures r.Some? ==> r.value.0 == rfqs[id].terms.taker && IsOrder(r.value.1, QuotesOn(State(), id).Keys)
    {
      if id !in rfqs {
        return None;
      }
      var makers: seq<Address> := [];
      var rest := QuotesOn(State(), id).Keys;
      while rest != {}
        invariant rest <= QuotesOn(State(), id).Keys
        invariant IsOrder(makers, QuotesOn(State(), id).Keys - rest)
      {
        var maker :| maker in rest;
        makers := makers + [maker];
        rest := rest - {maker};
      }
      return Some((rfqs[id].terms.taker, makers));
    }

    method CachedOutcome(id: Hash) returns (r: Option<Outcome>)
      ensures r == CachedFor(State(), id)
    {
      if id !in rfqs {
        return None;
      }
      return rfqs[id].cached;
    }

    method GC(now: int)
      modifies this
      ensures State() == Collect(old(State()), now)
    {
      var rest := rfqs.Keys;
      ghost var gone: set<Hash> := {};
      while rest != {}
        invariant rest <= old(rfqs).Keys && gone !! rest
        invariant gone == set id | id in Expired(old(State()), now) && id !in rest
        invariant rfqs == old(rfqs) - gone && quotes == old(quotes) - gone && nextSeq == old(nextSeq)
      {
        var id :| id in rest;
        if now > rfqs[id].terms.expiresAt {
          rfqs := rfqs - {id};
          quotes := quotes - {id};
          gone := gone + {id};
        }
        rest := rest - {id};
      }
      assert gone == Expired(old(State()), now);
    }
  }

  // ---- runs of commands ----

  datatype Command =
    | Add(id: Hash, taker: Address, amount: Uint64, limit: Option<int>, xrpl: seq<Byte>, now: int,
          windowSec: int, ttlSec: int)
    | Submit(rfqId: Hash, maker: Address, price: int, size: Uint64, nonce: Uint64, now: int)
    | Sweep(now: int)
    | Cache(id: Hash, outcome: Outcome)

  function Apply(cfg: Config, b: BookState, c: Command): BookState {
    match c
    case Add(id, taker, amount, limit, xrpl, now, windowSec, ttlSec) =>
      AddRfq(b, cfg, id, taker, amount, limit, xrpl, now, windowSec, ttlSec).0
    case Submit(rfqId, maker, price, size, nonce, now) => Upsert(b, rfqId, maker, price, size, nonce, now).0
    case Sweep(now) => Collect(b, now)
    case Cache(id, outcome) => CacheOutcome(b, id, outcome)
  }

  function Run(cfg: Config, commands: seq<Command>): BookState {
    if commands == [] then EMPTY_BOOK
    else Apply(cfg, Run(cfg, commands[..|commands| - 1]), commands[|commands| - 1])
  }

  /** What every run keeps: one quote map per RFQ, filed under the names its entries carry. */
  ghost predicate WellFiled(b: BookState) {
    b.quotes.Keys == b.rfqs.Keys &&
    (forall id | id in b.rfqs :: b.rfqs[id].terms.id == id) &&
    (forall id, m | id in b.quotes && m in b.quotes[id] ::
       b.quotes[id][m].rfqId == id && b.quotes[id][m].maker == m)
  }

  ghost predicate Rests(b: BookState, id: Hash, m: Address) {
    id in b.quotes && m in b.quotes[id]
  }

  function SeqOf(b: BookState, id: Hash, m: Address): Uint64
    requires Rests(b, id, m)
  {
    b.quotes[id][m].seqNo
  }

  /** Resting quotes hold distinct Seqs, none beyond the counter. */
  ghost predicate Ordered(b: BookState) {
    (forall id, m | Rests(b, id, m) :: SeqOf(b, id, m) <= b.nextSeq) &&
    (forall id, m, id', m' | Rests(b, id, m) && Rests(b, id', m') && SeqOf(b, id, m) == SeqOf(b, id', m') ::
       id == id' && m == m')
  }

  lemma ApplyKeepsFiling(cfg: Config, b: BookState, c: Command)
    requires WellFiled(b)
    ensures WellFiled(Apply(cfg, b, c))
  {
  }

  /** No quote rests but the maker's own on this RFQ. */
  ghost predicate RestsAlone(b: BookState, rfqId: Hash, maker: Address) {
    forall id, m | Rests(b, id, m) :: id == rfqId && m == maker
  }

  lemma UpsertPlaces(b: BookState, rfqId: Hash, maker: Address, price: int, size: Uint64, nonce: Uint64, now: int)
    requires Upsert(b, rfqId, maker, price, size, nonce, now).1.Ok?
    ensures var after := Upsert(b, rfqId, maker, price, size, nonce, now).0;
            after.nextSeq == (b.nextSeq + 1) % TWO64 &&
            Rests(after, rfqId, maker) && SeqOf(after, rfqId, maker) == after.nextSeq &&
            forall id, m | !(id == rfqId && m == maker) ::
              (Rests(after, id, m) <==> Rests(b, id, m)) && (Rests(b, id, m) ==> SeqOf(after, id, m) == SeqOf(b, id, m))
  {
  }

  /**
   An accepted quote keeps the order exactly when the 64-bit counter does not wrap or no other quote
   rests that a wrapped one could come before.
   */
  lemma UpsertKeepsOrder(b: BookState, rfqId: Hash, maker: Address, price: int, size: Uint64, nonce: Uint64, now: int)
    requires Ordered(b) && Upsert(b, rfqId, maker, price, size, nonce, now).1.Ok?
    ensures Ordered(Upsert(b, rfqId, maker, price, size, nonce, now).0) <==>
            b.nextSeq + 1 < TWO64 || RestsAlone(b, rfqId, maker)
  {
    var after := Upsert(b, rfqId, maker, price, size, nonce, now).0;
    UpsertPlaces(b, rfqId, maker, price, size, nonce, now);
    if b.nextSeq + 1 == TWO64 && Ordered(after) {
      forall id, m | Rests(b, id, m)
        ensures id == rfqId && m == maker
      {
        assert Rests(after, id, m) && SeqOf(after, id, m) == SeqOf(after, rfqId, maker);
      }
    }
  }

  /** The other commands only take quotes away. */
  lemma OthersKeepOrder(cfg: Config, b: BookState, c: Command)
    requires Ordered(b) && !c.Submit?
    ensures Ordered(Apply(cfg, b, c)) && Apply(cfg, b, c).nextSeq == b.nextSeq
  {
    var after := Apply(cfg, b, c);
    forall id, m | Rests(after, id, m)
      ensures Rests(b, id, m) && SeqOf(after, id, m) == SeqOf(b, id, m)
    {
    }
  }

  lemma ApplyKeepsOrder(cfg: Config, b: BookState, c: Command)
    requires Ordered(b) && b.nextSeq + 1 < TWO64
    ensures Ordered(Apply(cfg, b, c)) && Apply(cfg, b, c).nextSeq <= b.nextSeq + 1
  {
    if !c.Submit? {
      OthersKeepOrder(cfg, b, c);
    } else if Upsert(b, c.rfqId, c.maker, c.price, c.size, c.nonce, c.now).1.Ok? {
      UpsertKeepsOrder(b, c.rfqId, c.maker, c.price, c.size, c.nonce, c.now);
    }
  }

  lemma {:induction false} RunIsWellFiled(cfg: Config, commands: seq<Command>)
    ensures WellFiled(Run(cfg, commands))
  {
    if commands != [] {
      RunIsWellFiled(cfg, commands[..|commands| - 1]);
      ApplyKeepsFiling(cfg, Run(cfg, commands[..|commands| - 1]), commands[|commands| - 1]);
    }
  }

  lemma {:induction false} RunIsOrdered(cfg: Config, commands: seq<Command>)
    requires |commands| < TWO64
    ensures Ordered(Run(cfg, commands)) && Run(cfg, commands).nextSeq <= |commands|
  {
    if commands != [] {
      RunIsOrdered(cfg, commands[..|commands| - 1]);
      ApplyKeepsOrder(cfg, Run(cfg, commands[..|commands| - 1]), commands[|commands| - 1]);
    }
  }

  lemma OrderedQuotesAreDistinct(b: BookState, id: Hash, order: seq<Address>)
    requires Ordered(b) && IsOrder(order, QuotesOn(b, id).Keys)
    ensures DistinctSeqs(InOrder(QuotesOn(b, id), order))
  {
    forall i, j | 0 <= i < j < |order|
      ensures QuotesOn(b, id)[order[i]].seqNo != QuotesOn(b, id)[order[j]].seqNo
    {
      assert Rests(b, id, order[i]) && Rests(b, id, order[j]);
      assert SeqOf(b, id, order[i]) != SeqOf(b, id, order[j]);
    }
  }

  /** Two orders of the same map give the same quotes, once each. */
  lemma OrdersPermute(byMaker: map<Address, Quote>, a: seq<Address>, b: seq<Address>)
    requires IsOrder(a, byMaker.Keys) && IsOrder(b, byMaker.Keys)
    requires DistinctSeqs(InOrder(byMaker, a)) && DistinctSeqs(InOrder(byMaker, b))
    ensures multiset(InOrder(byMaker, a)) == multiset(InOrder(byMaker, b))
  {
    OrderHoldsAll(byMaker, a);
    OrderHoldsAll(byMaker, b);
    CountedOnce(InOrder(byMaker, a));
    CountedOnce(InOrder(byMaker, b));
  }

  lemma OrderHoldsAll(byMaker: map<Address, Quote>, order: seq<Address>)
    requires IsOrder(order, byMaker.Keys)
    ensures forall q :: q in InOrder(byMaker, order) <==> q in byMaker.Values
  {
    var quotes := InOrder(byMaker, order);
    forall m | m in byMaker
      ensures byMaker[m] in quotes
    {
      var i :| 0 <= i < |order| && order[i] == m;
      assert quotes[i] == byMaker[m];
    }
  }

  lemma {:induction false} CountedOnce(quotes: seq<Quote>)
    requires DistinctSeqs(quotes)
    ensures forall q :: multiset(quotes)[q] == if q in quotes then 1 else 0
  {
    if quotes != [] {
      var rest, last := quotes[..|quotes| - 1], quotes[|quotes| - 1];
      CountedOnce(rest);
      assert quotes == rest + [last];
      assert multiset(quotes) == multiset(rest) + multiset{last};
    }
  }

  /** Every book a run of fewer than 2^64 commands reaches decides the same in every map order. */
  lemma ReachableBooksDecideAlike(cfg: Config, commands: seq<Command>, s: Setting, id: Hash,
                                  a: seq<Address>, b: seq<Address>)
    requires |commands| < TWO64
    requires IsOrder(a, QuotesOn(Run(cfg, commands), id).Keys) && IsOrder(b, QuotesOn(Run(cfg, commands), id).Keys)
    ensures Decide(s, InOrder(QuotesOn(Run(cfg, commands), id), a)) ==
            Decide(s, InOrder(QuotesOn(Run(cfg, commands), id), b))
  {
    var book := Run(cfg, commands);
    RunIsOrdered(cfg, commands);
    OrderedQuotesAreDistinct(book, id, a);
    OrderedQuotesAreDistinct(book, id, b);
    OrdersPermute(QuotesOn(book, id), a, b);
    OrderIsIrrelevant(s, InOrder(QuotesOn(book, id), a), InOrder(QuotesOn(book, id), b));
  }
}
