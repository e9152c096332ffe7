/** The matching rule: six filters, a tally of reasons, and the price-time winner (matcher/match.go). */
module Matching {
  import opened Bytes
  import opened Results
  import opened Abi
  import Signing
  import Text

  // ---- time: nanoseconds since the epoch, and int64 durations ----

  const SECOND: int := 1_000_000_000

  /** time.Duration(n) * time.Second, which wraps in int64. */
  function Seconds(n: int): int {
    (n * SECOND + TWO63) % TWO64 - TWO63
  }

  /** now.Sub(earlier), which saturates in int64. */
  function Since(now: int, earlier: int): int {
    var d := now - earlier;
    if d < -TWO63 then -TWO63 else if d >= TWO63 then TWO63 - 1 else d
  }

  // ---- the entities ----

  datatype Config = Config(minBlock: Uint64, bandBips: Uint64, quoteTtlSec: int)

  /** The fields of an RFQ that nothing changes after AddRFQ. */
  datatype Terms = Terms(
    id: Hash, taker: Address, amount: Uint64, limit: int, xrpl: seq<Byte>,
    receivedAt: int, windowEndsAt: int, expiresAt: int)

  datatype Quote = Quote(
    rfqId: Hash, maker: Address, price: int, size: Uint64, nonce: Uint64, receivedAt: int, seqNo: Uint64)

  /** What the chain cache knew; a nil mid is None, an absent maker has no bond. */
  datatype ChainSnapshot = ChainSnapshot(
    mid: Option<int>, midAge: int, freeBond: map<Address, Uint64>, takerAvailable: Uint64)

  datatype Reason =
    InsufficientTakerFunds | SelfMatch | Stale | Undersized | OutOfBand | BelowLimit | InsufficientBond

  datatype MatchError = RfqUnknown | WindowOpen | PriceStale | SignFailed(cause: Signing.SignError)

  datatype Wire = Wire(
    matchId: string, escrow: string, taker: string, maker: string, amount: string, price: string,
    xrpl: seq<Byte>, expiresAt: Uint64)

  /** A reason counter is a multiset: a reason is in the source's map once it was counted. */
  datatype Outcome =
    | NoMatch(reasons: multiset<Reason>)
    | Matched(reasons: multiset<Reason>, wire: Wire, signed: Option<Signing.SignedMatch>,
              abiEncoded: string, teeSignature: string)

  // ---- the filters ----

  const MAX_PRICE_STALENESS: int := 60 * SECOND
  const BOND_BIPS: int := 100

  function RequiredBond(amount: Uint64): nat {
    amount * BOND_BIPS / 10_000
  }

  predicate InBand(price: int, mid: int, bandBips: Uint64) {
    mid * (10_000 - bandBips) <= price * 10_000 <= mid * (10_000 + bandBips)
  }

  function BondOf(snap: ChainSnapshot, maker: Address): Uint64 {
    if maker in snap.freeBond then snap.freeBond[maker] else 0
  }

  /** Everything matchCore is given besides the quotes. */
  datatype Setting = Setting(cfg: Config, escrow: Address, terms: Terms, snap: ChainSnapshot, now: int) {

    /** The first filter q fails, in the source's order; None when q is eligible. */
    function Classify(q: Quote): Option<Reason>
      requires snap.mid.Some?
    {
      var age := Since(now, q.receivedAt);
      if q.maker == terms.taker then Some(SelfMatch)
      else if age < 0 || age >= Seconds(cfg.quoteTtlSec) then Some(Stale)
      else if q.size < terms.amount then Some(Undersized)
      else if !InBand(q.price, snap.mid.value, cfg.bandBips) then Some(OutOfBand)
      else if q.price < terms.limit then Some(BelowLimit)
      else if BondOf(snap, q.maker) < RequiredBond(terms.amount) then Some(InsufficientBond)
      else None
    }

    predicate Eligible(q: Quote)
      requires snap.mid.Some?
    {
      Classify(q).None?
    }

    predicate Priced() {
      snap.mid.Some? && snap.mid.value > 0 && snap.midAge <= MAX_PRICE_STALENESS
    }

    predicate TakerFunded() {
      snap.takerAvailable >= terms.amount
    }
  }

  // ---- the six conditions, in the fields of the quote, the RFQ and the snapshot ----

  /** What q must meet not to be counted under the reason. */
  predicate Meets(s: Setting, q: Quote, reason: Reason)
    requires s.snap.mid.Some?
  {
    match reason
    case InsufficientTakerFunds => true
    case SelfMatch => q.maker != s.terms.taker
    case Stale => 0 <= s.now - q.receivedAt < Seconds(s.cfg.quoteTtlSec)
    case Undersized => s.terms.amount <= q.size
    case OutOfBand =>
      (10_000 - s.cfg.bandBips) * s.snap.mid.value <= 10_000 * q.price <= (10_000 + s.cfg.bandBips) * s.snap.mid.value
    case BelowLimit => s.terms.limit <= q.price
    case InsufficientBond =>
      s.terms.amount < 100 || (q.maker in s.snap.freeBond && s.terms.amount / 100 <= s.snap.freeBond[q.maker])
  }

  /** Full size, within its lifetime, not the taker's own, in band, at the limit or better, and bonded. */
  predicate Fills(s: Setting, q: Quote)
    requires s.snap.mid.Some?
  {
    Meets(s, q, SelfMatch) && Meets(s, q, Stale) && Meets(s, q, Undersized) && Meets(s, q, OutOfBand) &&
    Meets(s, q, BelowLimit) && Meets(s, q, InsufficientBond)
  }

  /** The place of a condition in the order the source asks them. */
  function Place(reason: Reason): nat {
    match reason
    case SelfMatch => 1
    case Stale => 2
    case Undersized => 3
    case OutOfBand => 4
    case BelowLimit => 5
    case InsufficientBond => 6
    case InsufficientTakerFunds => 7
  }

  /** Of the conditions q breaks, this is the first. */
  ghost predicate FirstBroken(s: Setting, q: Quote, reason: Reason)
    requires s.snap.mid.Some?
  {
    !Meets(s, q, reason) && forall earlier | Place(earlier) < Place(reason) :: Meets(s, q, earlier)
  }

  /** How many of the quotes break this condition first. */
  ghost function Breaking(s: Setting, quotes: seq<Quote>, reason: Reason): nat
    requires s.snap.mid.Some?
  {
    if quotes == [] then 0
    else Breaking(s, quotes[..|quotes| - 1], reason) + if FirstBroken(s, quotes[|quotes| - 1], reason) then 1 else 0
  }

  /** Durations are exact up to some 292 years. */
  lemma SecondsAreExact(n: int)
    requires -9_223_372_036 <= n <= 9_223_372_036
    ensures Seconds(n) == n * 1_000_000_000
  {
  }

  /** Saturation does not move an age across a lifetime. */
  lemma AgesCompare(now: int, earlier: int, lifetime: int)
    requires -TWO63 <= lifetime < TWO63
    ensures now >= earlier ==> (Since(now, earlier) < lifetime <==> now - earlier < lifetime)
    ensures Since(now, earlier) < 0 <==> now < earlier
  {
  }

  lemma BondTest(snap: ChainSnapshot, maker: Address, amount: Uint64)
    ensures BondOf(snap, maker) >= RequiredBond(amount) <==>
            amount < 100 || (maker in snap.freeBond && amount / 100 <= snap.freeBond[maker])
  {
    assert RequiredBond(amount) == amount / 100;
  }

  lemma BandTest(price: int, mid: int, bandBips: Uint64)
    ensures InBand(price, mid, bandBips) <==> (10_000 - bandBips) * mid <= 10_000 * price <= (10_000 + bandBips) * mid
  {
  }

  /** A quote is counted under the first condition it breaks, and under no other. */
  lemma ReasonIsFirstBroken(s: Setting, q: Quote, reason: Reason)
    requires s.snap.mid.Some? && reason != InsufficientTakerFunds
    ensures s.Classify(q) == Some(reason) <==> FirstBroken(s, q, reason)
  {
    AgesCompare(s.now, q.receivedAt, Seconds(s.cfg.quoteTtlSec));
    BondTest(s.snap, q.maker, s.terms.amount);
    BandTest(q.price, s.snap.mid.value, s.cfg.bandBips);
    FirstOfSix(s, q, s.Classify(q));
  }

  /** Where the six conditions are asked in their order, the first broken one is the answer. */
  lemma FirstOfSix(s: Setting, q: Quote, c: Option<Reason>)
    requires s.snap.mid.Some?
    requires c == if !Meets(s, q, SelfMatch) then Some(SelfMatch)
                  else if !Meets(s, q, Stale) then Some(Stale)
                  else if !Meets(s, q, Undersized) then Some(Undersized)
                  else if !Meets(s, q, OutOfBand) then Some(OutOfBand)
                  else if !Meets(s, q, BelowLimit) then Some(BelowLimit)
                  else if !Meets(s, q, InsufficientBond) then Some(InsufficientBond) else None
    ensures forall reason | reason != InsufficientTakerFunds :: c == Some(reason) <==> FirstBroken(s, q, reason)
    ensures c == None <==> Fills(s, q)
  {
  }

  /** A quote passes exactly when it breaks none. */
  lemma EligibleExactly(s: Setting, q: Quote)
    requires s.snap.mid.Some?
    ensures s.Eligible(q) <==> Fills(s, q)
  {
    AgesCompare(s.now, q.receivedAt, Seconds(s.cfg.quoteTtlSec));
    BondTest(s.snap, q.maker, s.terms.amount);
    BandTest(q.price, s.snap.mid.value, s.cfg.bandBips);
    FirstOfSix(s, q, s.Classify(q));
  }

  // ---- the rule, over the quotes in the order they are given ----

  function Survivors(s: Setting, quotes: seq<Quote>): seq<Quote>
    requires s.snap.mid.Some?
  {
    if quotes == [] then []
    else
      var q := quotes[|quotes| - 1];
      Survivors(s, quotes[..|quotes| - 1]) + if s.Eligible(q) then [q] else []
  }

  function Classes(s: Setting, quotes: seq<Quote>): seq<Option<Reason>>
    requires s.snap.mid.Some?
  {
    seq(|quotes|, i requires 0 <= i < |quotes| => s.Classify(quotes[i]))
  }

  function Count(classes: seq<Option<Reason>>): multiset<Reason> {
    if classes == [] then multiset{}
    else
      match classes[|classes| - 1]
      case None => Count(classes[..|classes| - 1])
      case Some(reason) => Count(classes[..|classes| - 1]) + multiset{reason}
  }

  function Tally(s: Setting, quotes: seq<Quote>): multiset<Reason>
    requires s.snap.mid.Some?
  {
    Count(Classes(s, quotes))
  }

  /** The switch of the winner loop: a higher price, or the same price and an earlier Seq. */
  function Pick(winner: Quote, q: Quote): Quote {
    if q.price > winner.price || (q.price == winner.price && q.seqNo < winner.seqNo) then q else winner
  }

  function Best(quotes: seq<Quote>): Quote
    requires quotes != []
  {
    if |quotes| == 1 then quotes[0] else Pick(Best(quotes[..|quotes| - 1]), quotes[|quotes| - 1])
  }

  datatype Decision = Nothing(reasons: multiset<Reason>) | Chosen(winner: Quote, reasons: multiset<Reason>)

  function Decide(s: Setting, quotes: seq<Quote>): Result<Decision, MatchError> {
    if !s.Priced() then Err(PriceStale)
    else if !s.TakerFunded() then Ok(Nothing(multiset{InsufficientTakerFunds}))
    else if Survivors(s, quotes) == [] then Ok(Nothing(Tally(s, quotes)))
    else Ok(Chosen(Best(Survivors(s, quotes)), Tally(s, quotes)))
  }

  /** uint64(now.Unix()) + 300, wrapping. */
  function ExpiryOf(now: int): Uint64 {
    (now / SECOND + 300) % TWO64
  }

  function InstructionFor(s: Setting, winner: Quote): Instruction {
    Instruction(s.terms.id, s.escrow, s.terms.taker, winner.maker, s.terms.amount, winner.price, s.terms.xrpl,
                ExpiryOf(s.now))
  }

  /** The instruction pays w for the RFQ, from this escrow, for the next five minutes. */
  predicate Pays(mi: Instruction, s: Setting, w: Quote) {
    mi.matchId == s.terms.id && mi.escrow == s.escrow && mi.taker == s.terms.taker && mi.maker == w.maker &&
    mi.amount == s.terms.amount && mi.price == w.price && mi.xrpl == s.terms.xrpl &&
    mi.expiresAt == (s.now / 1_000_000_000 + 300) % 0x1_0000_0000_0000_0000
  }

  function InstructionToWire(keccak: Signing.Keccak, mi: Instruction): Wire {
    Wire(Text.Hex(mi.matchId), Text.AddressHex(keccak, mi.escrow), Text.AddressHex(keccak, mi.taker),
         Text.AddressHex(keccak, mi.maker), Text.PrintInt(mi.amount), Text.PrintInt(mi.price), mi.xrpl, mi.expiresAt)
  }

  /** A number that does not parse stays nil in the source; the matcher never prints one. */
  function WireToInstruction(w: Wire): Option<Instruction> {
    match (Text.ParseInt(w.amount), Text.ParseInt(w.price))
    case (Some(amount), Some(price)) =>
      Some(Instruction(Text.HexToHash(w.matchId), Text.HexToAddress(w.escrow), Text.HexToAddress(w.taker),
                       Text.HexToAddress(w.maker), amount, price, w.xrpl, w.expiresAt))
    case _ => None
  }

  function OutcomeOf(keccak: Signing.Keccak, s: Setting, d: Decision): Outcome {
    match d
    case Nothing(reasons) => NoMatch(reasons)
    case Chosen(winner, reasons) =>
      Matched(reasons, InstructionToWire(keccak, InstructionFor(s, winner)), None, "", "")
  }

  /** What one quote adds to the tally. */
  function Mark(c: Option<Reason>): multiset<Reason> {
    match c
    case None => multiset{}
    case Some(reason) => multiset{reason}
  }

  /** One more quote: it survives or is counted. */
  lemma OneMore(s: Setting, quotes: seq<Quote>, i: nat)
    requires s.snap.mid.Some? && i < |quotes|
    ensures Survivors(s, quotes[..i + 1]) == Survivors(s, quotes[..i]) + if s.Eligible(quotes[i]) then [quotes[i]] else []
    ensures Tally(s, quotes[..i + 1]) == Tally(s, quotes[..i]) + Mark(s.Classify(quotes[i]))
  {
    assert quotes[..i + 1][..i] == quotes[..i];
    assert Classes(s, quotes[..i + 1])[..i] == Classes(s, quotes[..i]);
  }

  /** Each reason is shown as often as a quote breaks its condition first. */
  lemma {:induction false} TallyCounts(s: Setting, quotes: seq<Quote>, reason: Reason)
    requires s.snap.mid.Some? && reason != InsufficientTakerFunds
    ensures Tally(s, quotes)[reason] == Breaking(s, quotes, reason)
  {
    if quotes != [] {
      var n := |quotes| - 1;
      TallyCounts(s, quotes[..n], reason);
      assert quotes[..n + 1] == quotes;
      OneMore(s, quotes, n);
      ReasonIsFirstBroken(s, quotes[n], reason);
    }
  }

  /** A match at w is right: w is among the quotes, meets all six conditions, and none that does outranks it. */
  ghost predicate Deserves(s: Setting, quotes: seq<Quote>, w: Quote)
    requires s.snap.mid.Some?
  {
    w in quotes && Fills(s, w) && forall q | q in quotes && Fills(s, q) :: !Outranks(q, w)
  }

  lemma PaysItsWinner(s: Setting, w: Quote)
    ensures Pays(InstructionFor(s, w), s, w)
  {
  }

  lemma FillsBonded(s: Setting, q: Quote)
    requires s.snap.mid.Some? && Fills(s, q)
    ensures s.terms.amount >= 100 ==> q.maker in s.snap.freeBond
    ensures q.price >= s.terms.limit && q.size >= s.terms.amount
  {
  }

  /** The decision, in the fields of what it is made from. */
  lemma DecisionMeans(s: Setting, quotes: seq<Quote>)
    ensures var d := Decide(s, quotes);
            (d.Err? <==> s.snap.mid.None? || s.snap.mid.value <= 0 || s.snap.midAge > 60_000_000_000) &&
            (d.Err? ==> d.error == PriceStale) &&
            (d.Ok? && s.snap.takerAvailable < s.terms.amount ==> d.value == Nothing(multiset{InsufficientTakerFunds})) &&
            (d.Ok? && s.snap.takerAvailable >= s.terms.amount ==>
               (d.value.Nothing? ==> forall q | q in quotes :: !Fills(s, q)) &&
               (d.value.Chosen? ==> Deserves(s, quotes, d.value.winner)) &&
               forall reason | reason != InsufficientTakerFunds :: d.value.reasons[reason] == Breaking(s, quotes, reason))
  {
    if s.Priced() && s.TakerFunded() {
      SurvivorsAre(s, quotes);
      forall q
        ensures s.Eligible(q) <==> Fills(s, q)
      {
        EligibleExactly(s, q);
      }
      if Survivors(s, quotes) != [] {
        BestOutranksTheRest(Survivors(s, quotes));
      } else {
        assert forall q :: q !in Survivors(s, quotes);
      }
      forall reason | reason != InsufficientTakerFunds
        ensures Tally(s, quotes)[reason] == Breaking(s, quotes, reason)
      {
        TallyCounts(s, quotes, reason);
      }
    }
  }

  /** r says what the fields of s and the quotes make of a match. */
  ghost predicate Settled(keccak: Signing.Keccak, s: Setting, quotes: seq<Quote>, r: Result<Outcome, MatchError>) {
    (r.Err? <==> s.snap.mid.None? || s.snap.mid.value <= 0 || s.snap.midAge > 60_000_000_000) &&
    (r.Ok? && s.snap.takerAvailable < s.terms.amount ==> r.value == NoMatch(multiset{InsufficientTakerFunds})) &&
    (r.Ok? && s.snap.takerAvailable >= s.terms.amount && r.value.NoMatch? ==> forall q | q in quotes :: !Fills(s, q)) &&
    (r.Ok? && r.value.Matched? ==>
       s.snap.takerAvailable >= s.terms.amount &&
       exists w :: Deserves(s, quotes, w) && r.value.wire == InstructionToWire(keccak, InstructionFor(s, w)))
  }

  lemma DecisionSettles(keccak: Signing.Keccak, s: Setting, quotes: seq<Quote>, r: Result<Outcome, MatchError>)
    requires r == match Decide(s, quotes) case Err(e) => Err(e) case Ok(d) => Ok(OutcomeOf(keccak, s, d))
    ensures Settled(keccak, s, quotes, r)
  {
    DecisionMeans(s, quotes);
  }

  method MatchCore(keccak: Signing.Keccak, s: Setting, quotes: seq<Quote>) returns (r: Result<Outcome, MatchError>)
    ensures Settled(keccak, s, quotes, r)
    ensures r == match Decide(s, quotes) case Err(e) => Err(e) case Ok(d) => Ok(OutcomeOf(keccak, s, d))
  {
    if s.snap.mid.None? || s.snap.mid.value <= 0 {
      r := Err(PriceStale);
      DecisionSettles(keccak, s, quotes, r);
      return;
    }
    if s.snap.midAge > MAX_PRICE_STALENESS {
      r := Err(PriceStale);
      DecisionSettles(keccak, s, quotes, r);
      return;
    }
    if s.snap.takerAvailable < s.terms.amount {
      r := Ok(NoMatch(multiset{InsufficientTakerFunds}));
      DecisionSettles(keccak, s, quotes, r);
      return;
    }

    var reasons: multiset<Reason> := multiset{};
    var eligible: seq<Quote> := [];
    for i := 0 to |quotes|
      invariant eligible == Survivors(s, quotes[..i])
      invariant reasons == Tally(s, quotes[..i])
    {
      var q := quotes[i];
      OneMore(s, quotes, i);
      var age := Since(s.now, q.receivedAt);
      if q.maker == s.terms.taker {
        reasons := reasons + multiset{SelfMatch};
        continue;
      }
      if age < 0 || age >= Seconds(s.cfg.quoteTtlSec) {
        reasons := reasons + multiset{Stale};
        continue;
      }
      if q.size < s.terms.amount {
        reasons := reasons + multiset{Undersized};
        continue;
      }
      if !InBand(q.price, s.snap.mid.value, s.cfg.bandBips) {
        reasons := reasons + multiset{OutOfBand};
        continue;
      }
      if q.price < s.terms.limit {
        reasons := reasons + multiset{BelowLimit};
        continue;
      }
      if BondOf(s.snap, q.maker) < RequiredBond(s.terms.amount) {
        reasons := reasons + multiset{InsufficientBond};
        continue;
      }
      eligible := eligible + [q];
    }
    assert quotes[..|quotes|] == quotes;

    if |eligible| == 0 {
      r := Ok(NoMatch(reasons));
      DecisionSettles(keccak, s, quotes, r);
      return;
    }
    var winner := eligible[0];
    for i := 1 to |eligible|
      invariant winner == Best(eligible[..i])
    {
      var q := eligible[i];
      assert eligible[..i + 1][..i] == eligible[..i];
      if q.price > winner.price {
        winner := q;
      } else if q.price == winner.price {
        if q.seqNo < winner.seqNo {
          winner := q;
        }
      }
    }
    assert eligible[..|eligible|] == eligible;
    r := Ok(Matched(reasons, InstructionToWire(keccak, InstructionFor(s, winner)), None, "", ""));
    DecisionSettles(keccak, s, quotes, r);
  }

  // ---- what the rule means ----

  ghost predicate Outranks(a: Quote, b: Quote) {
    a.price > b.price || (a.price == b.price && a.seqNo < b.seqNo)
  }

  /** No two positions hold the same Seq. */
  ghost predicate DistinctSeqs(quotes: seq<Quote>) {
    forall i, j | 0 <= i < j < |quotes| :: quotes[i].seqNo != quotes[j].seqNo
  }

  lemma {:induction false} SurvivorsAre(s: Setting, quotes: seq<Quote>)
    requires s.snap.mid.Some?
    ensures forall q :: q in Survivors(s, quotes) <==> q in quotes && s.Eligible(q)
    ensures |Survivors(s, quotes)| + |Tally(s, quotes)| == |quotes|
  {
    if quotes != [] {
      var rest, last := quotes[..|quotes| - 1], quotes[|quotes| - 1];
      SurvivorsAre(s, rest);
      assert quotes == rest + [last];
      assert Classes(s, quotes)[..|rest|] == Classes(s, rest);
    }
  }

  lemma {:induction false} BestOutranksTheRest(quotes: seq<Quote>)
    requires quotes != []
    ensures Best(quotes) in quotes
    ensures forall q | q in quotes :: !Outranks(q, Best(quotes))
  {
    if |quotes| > 1 {
      var rest, last := quotes[..|quotes| - 1], quotes[|quotes| - 1];
      BestOutranksTheRest(rest);
      assert quotes == rest + [last];
    }
  }

  /**
   A quote wins exactly when it is eligible and outranks every other eligible quote; with distinct
   Seqs this leaves no room for the order of the quotes.
   */
  lemma WinnerIsPriceTimeBest(s: Setting, quotes: seq<Quote>, w: Quote)
    requires DistinctSeqs(quotes) && s.Priced() && s.TakerFunded()
    ensures Decide(s, quotes) == Ok(Chosen(w, Tally(s, quotes))) <==>
            w in quotes && s.Eligible(w) && forall q | q in quotes && s.Eligible(q) && q != w :: Outranks(w, q)
  {
    SurvivorsAre(s, quotes);
    var eligible := Survivors(s, quotes);
    if eligible != [] {
      BestOutranksTheRest(eligible);
    }
  }

  lemma {:induction false} CountSplits(a: seq<Option<Reason>>, b: seq<Option<Reason>>)
    ensures Count(a + b) == Count(a) + Count(b)
  {
    if b == [] {
      assert a + b == a;
    } else {
      CountSplits(a, b[..|b| - 1]);
      assert (a + b)[..|a + b| - 1] == a + b[..|b| - 1];
      assert (a + b)[|a + b| - 1] == b[|b| - 1];
    }
  }

  lemma TallyOfMiddle(s: Setting, left: seq<Quote>, q: Quote, right: seq<Quote>)
    requires s.snap.mid.Some?
    ensures Tally(s, left + [q] + right) == Tally(s, left + right) + Count([s.Classify(q)])
  {
    assert Classes(s, left + [q] + right) == Classes(s, left) + [s.Classify(q)] + Classes(s, right);
    assert Classes(s, left + right) == Classes(s, left) + Classes(s, right);
    CountSplits(Classes(s, left) + [s.Classify(q)], Classes(s, right));
    CountSplits(Classes(s, left), [s.Classify(q)]);
    CountSplits(Classes(s, left), Classes(s, right));
  }

  lemma {:induction false} TallyIsPermutable(s: Setting, a: seq<Quote>, b: seq<Quote>)
    requires s.snap.mid.Some? && multiset(a) == multiset(b)
    ensures Tally(s, a) == Tally(s, b)
  {
    if a == [] {
      assert |b| == |multiset(b)| == |multiset(a)| == 0;
    } else {
      var rest, last := a[..|a| - 1], a[|a| - 1];
      assert a == rest + [last] == rest + [last] + [];
      assert rest + [] == rest;
      assert last in multiset(b);
      var k :| 0 <= k < |b| && b[k] == last;
      MiddleRemoved(rest, last, b, k);
      TallyIsPermutable(s, rest, b[..k] + b[k + 1..]);
      TallyOfMiddle(s, b[..k], last, b[k + 1..]);
      TallyOfMiddle(s, rest, last, []);
    }
  }

  lemma MiddleRemoved(rest: seq<Quote>, last: Quote, b: seq<Quote>, k: nat)
    requires k < |b| && b[k] == last && multiset(rest + [last]) == multiset(b)
    ensures multiset(rest) == multiset(b[..k] + b[k + 1..])
    ensures b == b[..k] + [last] + b[k + 1..]
  {
    var left, right := b[..k], b[k + 1..];
    assert b == left + [last] + right;
    assert multiset(b) == multiset(left) + multiset{last} + multiset(right);
    assert multiset(rest + [last]) == multiset(rest) + multiset{last};
    assert multiset(rest) + multiset{last} - multiset{last} == multiset(rest);
  }

  /** Determinism: any two orders of the same quotes give the same decision. */
  lemma OrderIsIrrelevant(s: Setting, a: seq<Quote>, b: seq<Quote>)
    requires multiset(a) == multiset(b) && DistinctSeqs(a) && DistinctSeqs(b)
    ensures Decide(s, a) == Decide(s, b)
  {
    if s.Priced() && s.TakerFunded() {
      TallyIsPermutable(s, a, b);
      SameSurvivors(s, a, b);
      if Survivors(s, a) != [] {
        var w := Best(Survivors(s, a));
        WinnerIsPriceTimeBest(s, a, w);
        WinnerIsPriceTimeBest(s, b, w);
      }
    }
  }

  lemma SameSurvivors(s: Setting, a: seq<Quote>, b: seq<Quote>)
    requires s.snap.mid.Some? && multiset(a) == multiset(b)
    ensures forall q :: q in a <==> q in b
    ensures Survivors(s, a) == [] <==> Survivors(s, b) == []
  {
    SameElements(a, b);
    SurvivorsAre(s, a);
    SurvivorsAre(s, b);
    assert Survivors(s, a) != [] ==> Survivors(s, a)[0] in Survivors(s, b);
    assert Survivors(s, b) != [] ==> Survivors(s, b)[0] in Survivors(s, a);
  }

  lemma SameElements(a: seq<Quote>, b: seq<Quote>)
    requires multiset(a) == multiset(b)
    ensures forall q :: q in a <==> q in b
  {
    forall q
      ensures q in a <==> q in b
    {
      assert q in a <==> q in multiset(a);
      assert q in b <==> q in multiset(b);
    }
  }

  /** Adding an eligible quote, anywhere, never turns a match away nor lowers its price. */
  lemma CompetitionNeverHurts(s: Setting, quotes: seq<Quote>, q: Quote, at: nat)
    requires s.Priced() && s.TakerFunded() && s.Eligible(q) && at <= |quotes|
    ensures var more := Decide(s, quotes[..at] + [q] + quotes[at..]);
            more.Ok? && more.value.Chosen? && more.value.winner.price >= q.price &&
            (Decide(s, quotes).value.Chosen? ==> more.value.winner.price >= Decide(s, quotes).value.winner.price)
  {
    var all := quotes[..at] + [q] + quotes[at..];
    assert quotes == quotes[..at] + quotes[at..];
    BestOf(s, all, q);
    if Survivors(s, quotes) != [] {
      SurvivorsAre(s, quotes);
      BestOutranksTheRest(Survivors(s, quotes));
      BestOf(s, all, Best(Survivors(s, quotes)));
    }
  }

  /** An eligible quote finds a winner that it does not outrank. */
  lemma BestOf(s: Setting, quotes: seq<Quote>, q: Quote)
    requires s.snap.mid.Some? && q in quotes && s.Eligible(q)
    ensures Survivors(s, quotes) != [] && !Outranks(q, Best(Survivors(s, quotes)))
  {
    SurvivorsAre(s, quotes);
    assert q in Survivors(s, quotes);
    BestOutranksTheRest(Survivors(s, quotes));
  }

  /** The instruction rebuilt from the printed strings is the one that was printed, each from its own. */
  lemma WireRoundTrip(keccak: Signing.Keccak, mi: Instruction)
    ensures var w := InstructionToWire(keccak, mi);
            WireToInstruction(w) == Some(mi) &&
            Text.HexToHash(w.matchId) == mi.matchId && Text.HexToAddress(w.escrow) == mi.escrow &&
            Text.HexToAddress(w.taker) == mi.taker && Text.HexToAddress(w.maker) == mi.maker &&
            Text.ParseInt(w.amount) == Some(mi.amount) && Text.ParseInt(w.price) == Some(mi.price) &&
            w.xrpl == mi.xrpl && w.expiresAt == mi.expiresAt
  {
    Text.HashRoundTrip(mi.matchId);
    Text.AddressRoundTrip(keccak, mi.escrow);
    Text.AddressRoundTrip(keccak, mi.taker);
    Text.AddressRoundTrip(keccak, mi.maker);
    Text.ParsePrintInt(mi.amount);
    Text.ParsePrintInt(mi.price);
  }
}
