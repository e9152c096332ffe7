/** A maker whose quotes are eligible but lose leaves no trace in the outcome. */
module NoTrace {
  import opened Bytes
  import opened Results
  import opened Matching
  import opened Book
  import Chain = ChainCache
  import Signing

  /** The run with every submission of maker m taken out. */
  function Without(commands: seq<Command>, m: Address): (r: seq<Command>) {
    if commands == [] then []
    else
      var rest, last := Without(commands[..|commands| - 1], m), commands[|commands| - 1];
      if last.Submit? && last.maker == m then rest else rest + [last]
  }

  /** The same quote but for its Seq. */
  ghost predicate Alike(p: Quote, q: Quote) {
    p.(seqNo := 0) == q.(seqNo := 0)
  }

  /** The two books hold the same RFQs, and quotes of the same makers but for m. */
  ghost predicate SameShape(a: BookState, b: BookState, m: Address) {
    a.rfqs == b.rfqs && a.quotes.Keys == b.quotes.Keys &&
    forall id | id in a.quotes :: b.quotes[id].Keys == a.quotes[id].Keys - {m}
  }

  /** ... in the same order of arrival. */
  ghost predicate SameArrivals(a: BookState, b: BookState) {
    (forall id, k | Rests(b, id, k) :: Rests(a, id, k) && Alike(a.quotes[id][k], b.quotes[id][k])) &&
    (forall id, j, k | Rests(b, id, j) && Rests(b, id, k) ::
       SeqOf(a, id, j) < SeqOf(a, id, k) <==> SeqOf(b, id, j) < SeqOf(b, id, k))
  }

  ghost predicate Similar(a: BookState, b: BookState, m: Address) {
    SameShape(a, b, m) && SameArrivals(a, b)
  }

  /** Quotes that stay are unchanged. */
  ghost predicate Keeps(a: BookState, a': BookState, b': BookState) {
    forall id, k | Rests(b', id, k) :: Rests(a, id, k) && Rests(a', id, k) && a'.quotes[id][k] == a.quotes[id][k]
  }

  lemma KeepsArrivals(a: BookState, b: BookState, a': BookState, b': BookState)
    requires SameArrivals(a, b) && Keeps(a, a', b') && Keeps(b, b', b')
    ensures SameArrivals(a', b')
  {
    forall id, k | Rests(b', id, k)
      ensures Rests(a', id, k) && Alike(a'.quotes[id][k], b'.quotes[id][k])
    {
      assert Rests(b, id, k);
    }
    forall id, j, k | Rests(b', id, j) && Rests(b', id, k)
      ensures SeqOf(a', id, j) < SeqOf(a', id, k) <==> SeqOf(b', id, j) < SeqOf(b', id, k)
    {
      assert Rests(b, id, j) && Rests(b, id, k);
      assert SeqOf(a, id, j) < SeqOf(a, id, k) <==> SeqOf(b, id, j) < SeqOf(b, id, k);
    }
  }

  lemma OtherKeepsShape(cfg: Config, a: BookState, b: BookState, m: Address, c: Command)
    requires SameShape(a, b, m) && !c.Submit?
    ensures SameShape(Apply(cfg, a, c), Apply(cfg, b, c), m)
    ensures Keeps(b, Apply(cfg, b, c), Apply(cfg, b, c))
  {
  }

  lemma OtherKeepsSimilar(cfg: Config, a: BookState, b: BookState, m: Address, c: Command)
    requires Similar(a, b, m) && !c.Submit?
    ensures Similar(Apply(cfg, a, c), Apply(cfg, b, c), m)
  {
    var a', b' := Apply(cfg, a, c), Apply(cfg, b, c);
    OtherKeepsShape(cfg, a, b, m, c);
    forall id, k | Rests(b', id, k)
      ensures Rests(a, id, k) && Rests(a', id, k) && a'.quotes[id][k] == a.quotes[id][k]
    {
      assert Rests(b, id, k);
    }
    KeepsArrivals(a, b, a', b');
  }

  /** x with one quote filed. */
  function Filed(x: BookState, q: Quote): BookState
    requires q.rfqId in x.quotes
  {
    var resting: map<Address, Quote> := x.quotes[q.rfqId][q.maker := q];
    x.(quotes := x.quotes[q.rfqId := resting], nextSeq := q.seqNo)
  }

  lemma FiledArrivals(a: BookState, b: BookState, p: Quote, q: Quote)
    requires SameArrivals(a, b) && Ordered(a) && Ordered(b) && Alike(p, q)
    requires p.rfqId in a.quotes && q.rfqId in b.quotes && p.seqNo == a.nextSeq + 1 && q.seqNo == b.nextSeq + 1
    ensures SameArrivals(Filed(a, p), Filed(b, q))
  {
    var a', b' := Filed(a, p), Filed(b, q);
    forall id, k | Rests(b', id, k)
      ensures Rests(a', id, k) && Alike(a'.quotes[id][k], b'.quotes[id][k])
    {
      assert (id == q.rfqId && k == q.maker) || Rests(b, id, k);
    }
    forall id, j, k | Rests(b', id, j) && Rests(b', id, k)
      ensures SeqOf(a', id, j) < SeqOf(a', id, k) <==> SeqOf(b', id, j) < SeqOf(b', id, k)
    {
      FiledSeq(b, q, id, j);
      FiledSeq(b, q, id, k);
      if !(id == q.rfqId && j == q.maker) {
        FiledSeq(a, p, id, j);
      }
      if !(id == q.rfqId && k == q.maker) {
        FiledSeq(a, p, id, k);
      }
    }
  }

  lemma FiledSeq(x: BookState, q: Quote, id: Hash, k: Address)
    requires q.rfqId in x.quotes && Ordered(x) && q.seqNo == x.nextSeq + 1 && Rests(Filed(x, q), id, k)
    ensures id == q.rfqId && k == q.maker ==> SeqOf(Filed(x, q), id, k) == x.nextSeq + 1
    ensures !(id == q.rfqId && k == q.maker) ==>
              Rests(x, id, k) && SeqOf(Filed(x, q), id, k) == SeqOf(x, id, k) <= x.nextSeq
  {
  }

  lemma SubmitKeepsSimilar(cfg: Config, a: BookState, b: BookState, m: Address, c: Command)
    requires Similar(a, b, m) && Ordered(a) && Ordered(b) && a.nextSeq + 1 < TWO64 && b.nextSeq + 1 < TWO64
    requires c.Submit? && c.maker != m
    ensures Similar(Apply(cfg, a, c), Apply(cfg, b, c), m)
  {
    if c.rfqId in a.quotes {
      assert c.maker in a.quotes[c.rfqId] <==> c.maker in b.quotes[c.rfqId];
      if c.maker in b.quotes[c.rfqId] {
        assert Rests(b, c.rfqId, c.maker);
      }
      if !(c.maker in a.quotes[c.rfqId] && c.nonce <= a.quotes[c.rfqId][c.maker].nonce) {
        var p := Quote(c.rfqId, c.maker, c.price, c.size, c.nonce, c.now, a.nextSeq + 1);
        var q := p.(seqNo := b.nextSeq + 1);
        assert Apply(cfg, a, c) == Filed(a, p) && Apply(cfg, b, c) == Filed(b, q);
        FiledArrivals(a, b, p, q);
        assert SameShape(Filed(a, p), Filed(b, q), m);
      }
    }
  }

  lemma OwnSubmitKeepsSimilar(cfg: Config, a: BookState, b: BookState, m: Address, c: Command)
    requires Similar(a, b, m) && c.Submit? && c.maker == m
    ensures Similar(Apply(cfg, a, c), b, m)
  {
    var a' := Apply(cfg, a, c);
    forall id, k | Rests(b, id, k)
      ensures Rests(a, id, k) && Rests(a', id, k) && a'.quotes[id][k] == a.quotes[id][k]
    {
    }
    KeepsArrivals(a, b, a', b);
  }

  lemma {:induction false} WithoutIsShorter(commands: seq<Command>, m: Address)
    ensures |Without(commands, m)| <= |commands|
  {
    if commands != [] {
      WithoutIsShorter(commands[..|commands| - 1], m);
    }
  }

  lemma {:induction false} RunsStaySimilar(cfg: Config, commands: seq<Command>, m: Address)
    requires |commands| < TWO64
    ensures Similar(Run(cfg, commands), Run(cfg, Without(commands, m)), m)
  {
    if commands != [] {
      var rest, last := commands[..|commands| - 1], commands[|commands| - 1];
      RunsStaySimilar(cfg, rest, m);
      RunIsOrdered(cfg, rest);
      WithoutIsShorter(rest, m);
      RunIsOrdered(cfg, Without(rest, m));
      if last.Submit? && last.maker == m {
        OwnSubmitKeepsSimilar(cfg, Run(cfg, rest), Run(cfg, Without(rest, m)), m, last);
      } else {
        if last.Submit? {
          SubmitKeepsSimilar(cfg, Run(cfg, rest), Run(cfg, Without(rest, m)), m, last);
        } else {
          OtherKeepsSimilar(cfg, Run(cfg, rest), Run(cfg, Without(rest, m)), m, last);
        }
        assert Without(commands, m)[..|Without(commands, m)| - 1] == Without(rest, m);
      }
    }
  }

  /** m either rests no quote on this RFQ, or rests one that is eligible and does not win. */
  ghost predicate LosesQuietly(s: Setting, quotes: map<Address, Quote>, order: seq<Address>, m: Address)
    requires IsOrder(order, quotes.Keys)
  {
    m in quotes && s.Priced() && s.TakerFunded() ==>
      s.Eligible(quotes[m]) && Decide(s, InOrder(quotes, order)).Ok? &&
      Decide(s, InOrder(quotes, order)).value.Chosen? &&
      Decide(s, InOrder(quotes, order)).value.winner.maker != m
  }

  // ---- the run without m is judged on its own chain snapshot, which need not list m ----

  /** The same in all but what is known of m's bond. */
  ghost predicate SameButFor(s: Setting, r: Setting, m: Address) {
    r.cfg == s.cfg && r.escrow == s.escrow && r.terms == s.terms && r.now == s.now &&
    r.snap.mid == s.snap.mid && r.snap.midAge == s.snap.midAge && r.snap.takerAvailable == s.snap.takerAvailable &&
    forall k | k != m :: BondOf(r.snap, k) == BondOf(s.snap, k)
  }

  /** Two readings of one cache, for participants with and without m, are such a pair. */
  lemma ListingOneFewer(c: Chain.CacheState, staleMaxSec: int, makers: set<Address>, m: Address, cfg: Config,
                        escrow: Address, terms: Terms, now: int)
    ensures SameButFor(
              Setting(cfg, escrow, terms, Chain.SnapshotOf(c, staleMaxSec, terms.taker, makers, now), now),
              Setting(cfg, escrow, terms, Chain.SnapshotOf(c, staleMaxSec, terms.taker, makers - {m}, now), now), m)
  {
  }

  lemma {:induction false} SurvivorsAlike(s: Setting, r: Setting, m: Address, quotes: seq<Quote>)
    requires SameButFor(s, r, m) && s.snap.mid.Some? && forall q | q in quotes :: q.maker != m
    ensures Survivors(s, quotes) == Survivors(r, quotes)
  {
    if quotes != [] {
      var rest, last := quotes[..|quotes| - 1], quotes[|quotes| - 1];
      SurvivorsAlike(s, r, m, rest);
      assert last in quotes && s.Classify(last) == r.Classify(last);
    }
  }

  lemma DecideAlike(s: Setting, r: Setting, m: Address, quotes: seq<Quote>)
    requires SameButFor(s, r, m) && forall q | q in quotes :: q.maker != m
    ensures Decide(s, quotes) == Decide(r, quotes)
  {
    if s.snap.mid.Some? {
      SurvivorsAlike(s, r, m, quotes);
      assert Classes(s, quotes) == Classes(r, quotes);
    }
  }

  lemma WithoutDecidesAlike(cfg: Config, commands: seq<Command>, m: Address, s: Setting, r: Setting, id: Hash,
                            b: seq<Address>)
    requires |commands| < TWO64 && SameButFor(s, r, m)
    requires IsOrder(b, QuotesOn(Run(cfg, Without(commands, m)), id).Keys)
    ensures Decide(s, InOrder(QuotesOn(Run(cfg, Without(commands, m)), id), b)) ==
            Decide(r, InOrder(QuotesOn(Run(cfg, Without(commands, m)), id), b))
  {
    var y := Run(cfg, Without(commands, m));
    RunsStaySimilar(cfg, commands, m);
    RunIsWellFiled(cfg, Without(commands, m));
    forall q | q in InOrder(QuotesOn(y, id), b)
      ensures q.maker != m
    {
      var i :| 0 <= i < |b| && InOrder(QuotesOn(y, id), b)[i] == q;
      assert b[i] in b && b[i] in QuotesOn(y, id);
    }
    DecideAlike(s, r, m, InOrder(QuotesOn(y, id), b));
  }

  /** Under one setting: runs that differ only in a quiet loser's submissions give the same outcome. */
  lemma LoserUnseen(keccak: Signing.Keccak, cfg: Config, commands: seq<Command>, m: Address, s: Setting,
                    id: Hash, a: seq<Address>, b: seq<Address>)
    requires |commands| < TWO64
    requires IsOrder(a, QuotesOn(Run(cfg, commands), id).Keys)
    requires IsOrder(b, QuotesOn(Run(cfg, Without(commands, m)), id).Keys)
    requires LosesQuietly(s, QuotesOn(Run(cfg, commands), id), a, m)
    ensures SameOutcome(keccak, s, Decide(s, InOrder(QuotesOn(Run(cfg, commands), id), a)),
                        s, Decide(s, InOrder(QuotesOn(Run(cfg, Without(commands, m)), id), b)))
  {
    var x, y := Run(cfg, commands), Run(cfg, Without(commands, m));
    RunsStaySimilar(cfg, commands, m);
    RunIsWellFiled(cfg, commands);
    RunIsOrdered(cfg, commands);
    WithoutIsShorter(commands, m);
    RunIsOrdered(cfg, Without(commands, m));
    OrderedQuotesAreDistinct(x, id, a);
    OrderedQuotesAreDistinct(y, id, b);
    var all := if m in QuotesOn(x, id) then [m] + b else b;
    assert IsOrder(all, QuotesOn(x, id).Keys);
    OrderedQuotesAreDistinct(x, id, all);
    OrdersPermute(QuotesOn(x, id), a, all);
    OrderIsIrrelevant(s, InOrder(QuotesOn(x, id), a), InOrder(QuotesOn(x, id), all));
    if s.Priced() && s.TakerFunded() {
      SameDecision(keccak, s, x, y, id, m, b);
    }
  }

  /**
   Two runs that differ only in the submissions of a maker who loses quietly give the same outcome,
   reason counts and signed fields included, each judged on a chain snapshot that may list m or not.
   */
  lemma LoserLeavesNoTrace(keccak: Signing.Keccak, cfg: Config, commands: seq<Command>, m: Address, s: Setting,
                           r: Setting, id: Hash, a: seq<Address>, b: seq<Address>)
    requires |commands| < TWO64 && SameButFor(s, r, m)
    requires IsOrder(a, QuotesOn(Run(cfg, commands), id).Keys)
    requires IsOrder(b, QuotesOn(Run(cfg, Without(commands, m)), id).Keys)
    requires LosesQuietly(s, QuotesOn(Run(cfg, commands), id), a, m)
    ensures SameOutcome(keccak, s, Decide(s, InOrder(QuotesOn(Run(cfg, commands), id), a)),
                        r, Decide(r, InOrder(QuotesOn(Run(cfg, Without(commands, m)), id), b)))
  {
    LoserUnseen(keccak, cfg, commands, m, s, id, a, b);
    WithoutDecidesAlike(cfg, commands, m, s, r, id, b);
  }

  /** Whatever m submits, as long as it loses quietly, the outcome is the same. */
  lemma LosersAreInterchangeable(keccak: Signing.Keccak, cfg: Config, c: seq<Command>, d: seq<Command>, m: Address,
                                 s: Setting, r: Setting, id: Hash, a: seq<Address>, b: seq<Address>, others: seq<Address>)
    requires |c| < TWO64 && |d| < TWO64 && Without(c, m) == Without(d, m) && SameButFor(s, r, m)
    requires IsOrder(a, QuotesOn(Run(cfg, c), id).Keys) && IsOrder(b, QuotesOn(Run(cfg, d), id).Keys)
    requires IsOrder(others, QuotesOn(Run(cfg, Without(c, m)), id).Keys)
    requires LosesQuietly(s, QuotesOn(Run(cfg, c), id), a, m) && LosesQuietly(r, QuotesOn(Run(cfg, d), id), b, m)
    ensures SameOutcome(keccak, s, Decide(s, InOrder(QuotesOn(Run(cfg, c), id), a)),
                        r, Decide(r, InOrder(QuotesOn(Run(cfg, d), id), b)))
  {
    LoserLeavesNoTrace(keccak, cfg, c, m, s, r, id, a, others);
    LoserUnseen(keccak, cfg, d, m, r, id, b, others);
  }

  /** m rests a quote that is not the one chosen. */
  ghost predicate Loses(s: Setting, quotes: map<Address, Quote>, order: seq<Address>, m: Address)
    requires IsOrder(order, quotes.Keys)
  {
    m in quotes && s.Priced() && s.TakerFunded() &&
    var d := Decide(s, InOrder(quotes, order)).value;
    d.Chosen? ==> d.winner.maker != m
  }

  /**
   The exact extent of it: a loser leaves no trace if and only if its quote passed every filter. A
   quote that was filtered out stays visible in the reason counts.
   */
  lemma LoserLeavesNoTraceExactly(keccak: Signing.Keccak, cfg: Config, commands: seq<Command>, m: Address, s: Setting,
                                  r: Setting, id: Hash, a: seq<Address>, b: seq<Address>)
    requires |commands| < TWO64 && SameButFor(s, r, m)
    requires IsOrder(a, QuotesOn(Run(cfg, commands), id).Keys)
    requires IsOrder(b, QuotesOn(Run(cfg, Without(commands, m)), id).Keys)
    requires Loses(s, QuotesOn(Run(cfg, commands), id), a, m)
    ensures SameOutcome(keccak, s, Decide(s, InOrder(QuotesOn(Run(cfg, commands), id), a)),
                        r, Decide(r, InOrder(QuotesOn(Run(cfg, Without(commands, m)), id), b))) <==>
            s.Eligible(QuotesOn(Run(cfg, commands), id)[m])
  {
    if s.Eligible(QuotesOn(Run(cfg, commands), id)[m]) {
      EligibleIsChosenFrom(s, QuotesOn(Run(cfg, commands), id), a, m);
      LoserLeavesNoTrace(keccak, cfg, commands, m, s, r, id, a, b);
    } else {
      FilteredIsSeen(keccak, cfg, commands, m, s, r, id, a, b);
    }
  }

  lemma FilteredIsSeen(keccak: Signing.Keccak, cfg: Config, commands: seq<Command>, m: Address, s: Setting,
                       r: Setting, id: Hash, a: seq<Address>, b: seq<Address>)
    requires |commands| < TWO64 && SameButFor(s, r, m) && s.Priced() && s.TakerFunded()
    requires IsOrder(a, QuotesOn(Run(cfg, commands), id).Keys)
    requires IsOrder(b, QuotesOn(Run(cfg, Without(commands, m)), id).Keys)
    requires m in QuotesOn(Run(cfg, commands), id) && !s.Eligible(QuotesOn(Run(cfg, commands), id)[m])
    ensures !SameOutcome(keccak, s, Decide(s, InOrder(QuotesOn(Run(cfg, commands), id), a)),
                         r, Decide(r, InOrder(QuotesOn(Run(cfg, Without(commands, m)), id), b)))
  {
    var x, y := Run(cfg, commands), Run(cfg, Without(commands, m));
    RunsStaySimilar(cfg, commands, m);
    WithoutKeepsOrder(cfg, commands, m, id, a, b);
    FilteredIsCounted(s, x, y, id, m, a, b);
    WithoutDecidesAlike(cfg, commands, m, s, r, id, b);
    ReasonsShow(keccak, s, InOrder(QuotesOn(x, id), a));
    ReasonsShow(keccak, s, InOrder(QuotesOn(y, id), b));
  }

  lemma EligibleIsChosenFrom(s: Setting, quotes: map<Address, Quote>, order: seq<Address>, m: Address)
    requires IsOrder(order, quotes.Keys) && m in quotes && s.Priced() && s.TakerFunded() && s.Eligible(quotes[m])
    ensures Decide(s, InOrder(quotes, order)).value.Chosen?
  {
    OrderHoldsAll(quotes, order);
    SurvivorsAre(s, InOrder(quotes, order));
    assert quotes[m] in Survivors(s, InOrder(quotes, order));
  }

  /** The reasons an outcome shows are the tally. */
  lemma ReasonsShow(keccak: Signing.Keccak, s: Setting, quotes: seq<Quote>)
    requires s.Priced() && s.TakerFunded()
    ensures Decide(s, quotes).Ok? && OutcomeOf(keccak, s, Decide(s, quotes).value).reasons == Tally(s, quotes)
  {
  }

  /** With m's quote back in front, the order of the other makers is one of all makers. */
  lemma WithoutKeepsOrder(cfg: Config, commands: seq<Command>, m: Address, id: Hash, a: seq<Address>, b: seq<Address>)
    requires |commands| < TWO64 && m in QuotesOn(Run(cfg, commands), id)
    requires IsOrder(a, QuotesOn(Run(cfg, commands), id).Keys)
    requires IsOrder(b, QuotesOn(Run(cfg, Without(commands, m)), id).Keys)
    ensures IsOrder([m] + b, QuotesOn(Run(cfg, commands), id).Keys)
    ensures multiset(InOrder(QuotesOn(Run(cfg, commands), id), a)) ==
            multiset(InOrder(QuotesOn(Run(cfg, commands), id), [m] + b))
  {
    var x := Run(cfg, commands);
    RunsStaySimilar(cfg, commands, m);
    RunIsOrdered(cfg, commands);
    assert IsOrder([m] + b, QuotesOn(x, id).Keys);
    OrderedQuotesAreDistinct(x, id, a);
    OrderedQuotesAreDistinct(x, id, [m] + b);
    OrdersPermute(QuotesOn(x, id), a, [m] + b);
  }

  lemma FilteredIsCounted(s: Setting, x: BookState, y: BookState, id: Hash, m: Address, a: seq<Address>, b: seq<Address>)
    requires Similar(x, y, m) && s.snap.mid.Some? && IsOrder(b, QuotesOn(y, id).Keys) && IsOrder(a, QuotesOn(x, id).Keys)
    requires m in QuotesOn(x, id) && !s.Eligible(QuotesOn(x, id)[m]) && IsOrder([m] + b, QuotesOn(x, id).Keys)
    requires multiset(InOrder(QuotesOn(x, id), a)) == multiset(InOrder(QuotesOn(x, id), [m] + b))
    ensures |Tally(s, InOrder(QuotesOn(x, id), a))| == |Tally(s, InOrder(QuotesOn(y, id), b))| + 1
  {
    TallyIsPermutable(s, InOrder(QuotesOn(x, id), a), InOrder(QuotesOn(x, id), [m] + b));
    TallyWithFront(s, x, y, id, m, b);
  }

  /** What p decides under s and q under r reads the same. */
  ghost predicate SameOutcome(keccak: Signing.Keccak, s: Setting, p: Result<Decision, MatchError>,
                              r: Setting, q: Result<Decision, MatchError>)
  {
    match (p, q)
    case (Err(e), Err(f)) => e == f
    case (Ok(d), Ok(e)) => OutcomeOf(keccak, s, d) == OutcomeOf(keccak, r, e)
    case _ => false
  }

  lemma SameDecision(keccak: Signing.Keccak, s: Setting, x: BookState, y: BookState, id: Hash, m: Address, b: seq<Address>)
    requires Similar(x, y, m) && WellFiled(x) && s.Priced() && s.TakerFunded() && IsOrder(b, QuotesOn(y, id).Keys)
    requires Ordered(x) && Ordered(y)
    requires var all := if m in QuotesOn(x, id) then [m] + b else b;
             IsOrder(all, QuotesOn(x, id).Keys) && LosesQuietly(s, QuotesOn(x, id), all, m)
    ensures var all := if m in QuotesOn(x, id) then [m] + b else b;
            SameOutcome(keccak, s, Decide(s, InOrder(QuotesOn(x, id), all)), s, Decide(s, InOrder(QuotesOn(y, id), b)))
  {
    var qx, qy := QuotesOn(x, id), QuotesOn(y, id);
    var all := if m in qx then [m] + b else b;
    SameTally(s, x, y, id, m, b);
    SurvivorsAre(s, InOrder(qx, all));
    SurvivorsAre(s, InOrder(qy, b));
    if Survivors(s, InOrder(qx, all)) != [] {
      OrderedQuotesAreDistinct(x, id, all);
      var k := WinnerOf(s, qx, all);
      assert k != m;
      assert Rests(x, id, k);
      TwinWins(s, x, y, id, m, k);
      TwinDecided(s, y, id, k, b);
      SameInstruction(keccak, s, qx[k], qy[k], Tally(s, InOrder(qy, b)));
    }
  }

  lemma TwinDecided(s: Setting, y: BookState, id: Hash, k: Address, b: seq<Address>)
    requires Ordered(y) && s.Priced() && s.TakerFunded() && Rests(y, id, k) && s.Eligible(y.quotes[id][k])
    requires IsOrder(b, QuotesOn(y, id).Keys)
    requires forall q | q in y.quotes[id].Values && s.Eligible(q) && q != y.quotes[id][k] :: Outranks(y.quotes[id][k], q)
    ensures Decide(s, InOrder(QuotesOn(y, id), b)) == Ok(Chosen(y.quotes[id][k], Tally(s, InOrder(QuotesOn(y, id), b))))
  {
    OrderedQuotesAreDistinct(y, id, b);
    OrderHoldsAll(QuotesOn(y, id), b);
    WinnerIsPriceTimeBest(s, InOrder(QuotesOn(y, id), b), y.quotes[id][k]);
  }

  lemma SameInstruction(keccak: Signing.Keccak, s: Setting, p: Quote, q: Quote, reasons: multiset<Reason>)
    requires Alike(p, q)
    ensures OutcomeOf(keccak, s, Chosen(p, reasons)) == OutcomeOf(keccak, s, Chosen(q, reasons))
  {
    assert p.maker == p.(seqNo := 0).maker && p.price == p.(seqNo := 0).price;
    assert q.maker == q.(seqNo := 0).maker && q.price == q.(seqNo := 0).price;
  }

  lemma WinnerOf(s: Setting, quotes: map<Address, Quote>, order: seq<Address>) returns (k: Address)
    requires s.Priced() && s.TakerFunded() && IsOrder(order, quotes.Keys) && DistinctSeqs(InOrder(quotes, order))
    requires Survivors(s, InOrder(quotes, order)) != []
    ensures k in quotes && s.Eligible(quotes[k])
    ensures Decide(s, InOrder(quotes, order)) == Ok(Chosen(quotes[k], Tally(s, InOrder(quotes, order))))
    ensures forall q | q in quotes.Values && s.Eligible(q) && q != quotes[k] :: Outranks(quotes[k], q)
  {
    var w := Best(Survivors(s, InOrder(quotes, order)));
    OrderHoldsAll(quotes, order);
    SurvivorsAre(s, InOrder(quotes, order));
    BestOutranksTheRest(Survivors(s, InOrder(quotes, order)));
    WinnerIsPriceTimeBest(s, InOrder(quotes, order), w);
    k :| k in quotes && quotes[k] == w;
  }

  /** The winner's twin wins among the others. */
  lemma TwinWins(s: Setting, x: BookState, y: BookState, id: Hash, m: Address, k: Address)
    requires Similar(x, y, m) && s.snap.mid.Some? && Rests(x, id, k) && k != m && s.Eligible(x.quotes[id][k])
    requires forall q | q in x.quotes[id].Values && s.Eligible(q) && q != x.quotes[id][k] :: Outranks(x.quotes[id][k], q)
    requires Ordered(x) && Ordered(y)
    ensures Rests(y, id, k) && Alike(x.quotes[id][k], y.quotes[id][k]) && s.Eligible(y.quotes[id][k])
    ensures forall q | q in y.quotes[id].Values && s.Eligible(q) && q != y.quotes[id][k] :: Outranks(y.quotes[id][k], q)
  {
    assert Rests(y, id, k);
    forall q | q in y.quotes[id].Values && s.Eligible(q) && q != y.quotes[id][k]
      ensures Outranks(y.quotes[id][k], q)
    {
      var j :| j in y.quotes[id] && y.quotes[id][j] == q;
      assert Rests(y, id, j) && Alike(x.quotes[id][j], q);
      assert Rests(x, id, j) && Rests(x, id, k);
      assert SeqOf(x, id, j) != SeqOf(x, id, k);
      assert s.Eligible(x.quotes[id][j]);
      assert Outranks(x.quotes[id][k], x.quotes[id][j]);
    }
  }

  /** m's quote adds the reason it is filtered for, if any; the others are classified alike. */
  lemma TallyWithFront(s: Setting, x: BookState, y: BookState, id: Hash, m: Address, b: seq<Address>)
    requires Similar(x, y, m) && s.snap.mid.Some? && IsOrder(b, QuotesOn(y, id).Keys) && m in QuotesOn(x, id)
    ensures forall k | k in [m] + b :: k in QuotesOn(x, id)
    ensures Tally(s, InOrder(QuotesOn(x, id), [m] + b)) ==
            Tally(s, InOrder(QuotesOn(y, id), b)) + Mark(s.Classify(QuotesOn(x, id)[m]))
  {
    var qx := QuotesOn(x, id);
    SameClasses(s, x, y, id, m, b);
    var rest := InOrder(qx, b);
    assert InOrder(qx, [m] + b) == [qx[m]] + rest;
    FrontCounted(s, qx[m], rest);
  }

  /** m's eligible quote is counted nowhere. */
  lemma SameTally(s: Setting, x: BookState, y: BookState, id: Hash, m: Address, b: seq<Address>)
    requires Similar(x, y, m) && s.snap.mid.Some? && IsOrder(b, QuotesOn(y, id).Keys)
    requires m in QuotesOn(x, id) ==> s.Eligible(QuotesOn(x, id)[m])
    ensures forall k | k in b :: k in QuotesOn(x, id)
    ensures Tally(s, InOrder(QuotesOn(x, id), if m in QuotesOn(x, id) then [m] + b else b)) ==
            Tally(s, InOrder(QuotesOn(y, id), b))
  {
    SameClasses(s, x, y, id, m, b);
    if m in QuotesOn(x, id) {
      TallyWithFront(s, x, y, id, m, b);
    }
  }

  lemma SameClasses(s: Setting, x: BookState, y: BookState, id: Hash, m: Address, b: seq<Address>)
    requires Similar(x, y, m) && s.snap.mid.Some? && IsOrder(b, QuotesOn(y, id).Keys)
    ensures forall k | k in b :: k in QuotesOn(x, id)
    ensures Classes(s, InOrder(QuotesOn(x, id), b)) == Classes(s, InOrder(QuotesOn(y, id), b))
  {
    forall i | 0 <= i < |b|
      ensures b[i] in QuotesOn(x, id) && s.Classify(QuotesOn(x, id)[b[i]]) == s.Classify(QuotesOn(y, id)[b[i]])
    {
      assert b[i] in b && b[i] in QuotesOn(y, id).Keys;
      assert Rests(y, id, b[i]);
      AlikeClassed(s, QuotesOn(x, id)[b[i]], QuotesOn(y, id)[b[i]]);
    }
  }

  lemma AlikeClassed(s: Setting, p: Quote, q: Quote)
    requires s.snap.mid.Some? && Alike(p, q)
    ensures s.Classify(p) == s.Classify(q)
  {
    var e := p.(seqNo := 0);
    assert e == q.(seqNo := 0);
    assert e.maker == p.maker == q.maker && e.price == p.price == q.price && e.size == p.size == q.size;
    assert e.receivedAt == p.receivedAt == q.receivedAt;
  }

  /** A quote in front adds the reason it is filtered for, if any. */
  lemma FrontCounted(s: Setting, q: Quote, rest: seq<Quote>)
    requires s.snap.mid.Some?
    ensures Tally(s, [q] + rest) == Tally(s, rest) + Mark(s.Classify(q))
  {
    TallyOfMiddle(s, [], q, rest);
    assert [] + [q] + rest == [q] + rest && [] + rest == rest;
    var one := [s.Classify(q)];
    assert one[..0] == [] && Count([]) == multiset{};
  }
}
