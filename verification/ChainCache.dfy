/** The cached chain reads the match prefilter works from (fcewire/snapshot.go, chainreads.go). */
module ChainCache {
  import opened Bytes
  import opened Results
  import opened Matching

  /** A non-negative big.Int saturated to uint64; nil and negative numbers read as zero. */
  function ClampUint64(v: Option<int>): Uint64 {
    match v
    case None => 0
    case Some(n) => if n <= 0 then 0 else if n < TWO64 then n else TWO64 - 1
  }

  /** A taker's balances as DvPEscrow reports them: uint128 armed and committed, and the arming deadline. */
  datatype TakerReply = TakerReply(armed: nat, committed: nat, armedUntil: Uint64)

  function Available(reply: TakerReply, nowSec: Uint64): Uint64 {
    var armed, committed := ClampUint64(Some(reply.armed)), ClampUint64(Some(reply.committed));
    if armed > committed && nowSec <= reply.armedUntil then armed - committed else 0
  }

  datatype CacheState = CacheState(
    mid: Option<int>, midFetchAt: Option<int>, bondFree: map<Address, Uint64>, takerAvail: map<Address, Uint64>)

  function Cached(known: map<Address, Uint64>, who: Address): Uint64 {
    if who in known then known[who] else 0
  }

  function SnapshotOf(c: CacheState, staleMaxSec: int, taker: Address, makers: set<Address>, now: int): ChainSnapshot {
    ChainSnapshot(
      c.mid,
      match c.midFetchAt case None => Seconds(staleMaxSec + 1) case Some(at) => Since(now, at),
      map m: Address | m in makers :: Cached(c.bondFree, m),
      Cached(c.takerAvail, taker))
  }

  /** Answers of the node; None where the call failed. */
  datatype Replies = Replies(
    feed: Option<int>, fetchedAt: int,
    bonds: map<Address, Option<int>>, takers: map<Address, Option<TakerReply>>, nowSec: Uint64)

  function BondsAfter(known: map<Address, Uint64>, asked: set<Address>, replies: map<Address, Option<int>>)
    : map<Address, Uint64>
  {
    map m: Address | m in known.Keys + (asked * replies.Keys) && (m in known || replies[m].Some?) ::
      if m in asked && m in replies && replies[m].Some? then ClampUint64(replies[m]) else known[m]
  }

  function FundsAfter(known: map<Address, Uint64>, asked: set<Address>, replies: map<Address, Option<TakerReply>>,
                      nowSec: Uint64): map<Address, Uint64>
  {
    map t: Address | t in known.Keys + (asked * replies.Keys) && (t in known || replies[t].Some?) ::
      if t in asked && t in replies && replies[t].Some? then Available(replies[t].value, nowSec) else known[t]
  }

  /** One poll of the chain: a failed call leaves what was known. */
  function Refreshed(c: CacheState, makers: set<Address>, takers: set<Address>, replies: Replies): CacheState {
    CacheState(
      if replies.feed.Some? then replies.feed else c.mid,
      if replies.feed.Some? then Some(replies.fetchedAt) else c.midFetchAt,
      BondsAfter(c.bondFree, makers, replies.bonds),
      FundsAfter(c.takerAvail, takers, replies.takers, replies.nowSec))
  }

  class ChainCache {
    var mid: Option<int>
    var midFetchAt: Option<int>
    var bondFree: map<Address, Uint64>
    var takerAvail: map<Address, Uint64>
    var trackedMakers: set<Address>
    var trackedTakers: set<Address>
    const staleMaxSec: int
    ghost var polls: seq<Poll>

    function State(): CacheState
      reads this
    {
      CacheState(mid, midFetchAt, bondFree, takerAvail)
    }

    /** The cache holds what its polls brought and nothing else. */
    ghost predicate Valid()
      reads this
    {
      State() == Polled(polls)
    }

    constructor (staleMaxSec: int)
      ensures State() == CacheState(None, None, map[], map[]) && this.staleMaxSec == staleMaxSec
      ensures trackedMakers == {} && trackedTakers == {}
      ensures polls == [] && Valid()
    {
      polls := [];
      mid, midFetchAt, bondFree, takerAvail := None, None, map[], map[];
      trackedMakers, trackedTakers := {}, {};
      this.staleMaxSec := staleMaxSec;
    }

    method TrackMaker(who: Address)
      modifies this`trackedMakers
      ensures trackedMakers == old(trackedMakers) + {who}
    {
      trackedMakers := trackedMakers + {who};
    }

    method TrackTaker(who: Address)
      modifies this`trackedTakers
      ensures trackedTakers == old(trackedTakers) + {who}
    {
      trackedTakers := trackedTakers + {who};
    }

    method Refresh(replies: Replies)
      modifies this
      ensures State() == Refreshed(old(State()), old(trackedMakers), old(trackedTakers), replies)
      ensures trackedMakers == old(trackedMakers) && trackedTakers == old(trackedTakers)
      ensures polls == old(polls) + [Poll(trackedMakers, trackedTakers, replies)] && (old(Valid()) ==> Valid())
    {
      if replies.feed.Some? {
        mid := replies.feed;
        midFetchAt := Some(replies.fetchedAt);
      }
      RefreshBonds(replies);
      RefreshFunds(replies);
      polls := polls + [Poll(trackedMakers, trackedTakers, replies)];
      assert polls[..|polls| - 1] == old(polls);
    }

    /** Every tracked maker's bond, in whatever order the set gives them out. */
    method RefreshBonds(replies: Replies)
      modifies this`bondFree
      ensures bondFree == BondsAfter(old(bondFree), trackedMakers, replies.bonds)
    {
      var rest := trackedMakers;
      ghost var done: set<Address> := {};
      while rest != {}
        invariant done !! rest && done + rest == trackedMakers
        invariant bondFree == BondsAfter(old(bondFree), done, replies.bonds)
      {
        var m :| m in rest;
        if m in replies.bonds && replies.bonds[m].Some? {
          bondFree := bondFree[m := ClampUint64(replies.bonds[m])];
        }
        rest, done := rest - {m}, done + {m};
      }
    }

    /** Every tracked taker's available funds. */
    method RefreshFunds(replies: Replies)
      modifies this`takerAvail
      ensures takerAvail == FundsAfter(old(takerAvail), trackedTakers, replies.takers, replies.nowSec)
    {
      var rest := trackedTakers;
      ghost var done: set<Address> := {};
      while rest != {}
        invariant done !! rest && done + rest == trackedTakers
        invariant takerAvail == FundsAfter(old(takerAvail), done, replies.takers, replies.nowSec)
      {
        var t :| t in rest;
        if t in replies.takers && replies.takers[t].Some? {
          takerAvail := takerAvail[t := Available(replies.takers[t].value, replies.nowSec)];
        }
        rest, done := rest - {t}, done + {t};
      }
    }

    method Snapshot(taker: Address, makers: seq<Address>, now: int) returns (r: ChainSnapshot)
      ensures r == SnapshotOf(State(), staleMaxSec, taker, (set m: Address | m in makers), now)
    {
      var bonds: map<Address, Uint64> := map[];
      for i := 0 to |makers|
        invariant bonds == map m: Address | m in makers[..i] :: Cached(bondFree, m)
      {
        bonds := bonds[makers[i] := Cached(bondFree, makers[i])];
      }
      assert makers[..|makers|] == makers;
      var age := if midFetchAt.None? then Seconds(staleMaxSec + 1) else Since(now, midFetchAt.value);
      return ChainSnapshot(mid, age, bonds, Cached(takerAvail, taker));
    }
  }

  /** Before the first price arrives nothing can match, however the staleness bound is configured. */
  lemma UnfetchedPriceFailsClosed(c: CacheState, staleMaxSec: int, taker: Address, makers: set<Address>, now: int,
                                  cfg: Config, escrow: Address, terms: Terms, quotes: seq<Quote>)
    requires c.mid.None?
    ensures Decide(Setting(cfg, escrow, terms, SnapshotOf(c, staleMaxSec, taker, makers, now), now), quotes)
            == Err(PriceStale)
  {
  }

  /** A price was fetched at some time. */
  predicate Fetched(c: CacheState) {
    c.mid.Some? ==> c.midFetchAt.Some?
  }

  /** The cache after polls, from when it was made. */
  datatype Poll = Poll(makers: set<Address>, takers: set<Address>, replies: Replies)

  function Polled(polls: seq<Poll>): CacheState {
    if polls == [] then CacheState(None, None, map[], map[])
    else
      var last := polls[|polls| - 1];
      Refreshed(Polled(polls[..|polls| - 1]), last.makers, last.takers, last.replies)
  }

  lemma {:induction false} PolledIsFetched(polls: seq<Poll>)
    ensures Fetched(Polled(polls))
  {
    if polls != [] {
      PolledIsFetched(polls[..|polls| - 1]);
    }
  }

  /** Whatever the configured staleness bound, a cache filled by polls decides the same. */
  lemma StalenessSettingIsIdle(polls: seq<Poll>, one: int, other: int, taker: Address, makers: set<Address>, now: int,
                               cfg: Config, escrow: Address, terms: Terms, quotes: seq<Quote>)
    ensures Decide(Setting(cfg, escrow, terms, SnapshotOf(Polled(polls), one, taker, makers, now), now), quotes) ==
            Decide(Setting(cfg, escrow, terms, SnapshotOf(Polled(polls), other, taker, makers, now), now), quotes)
  {
    PolledIsFetched(polls);
  }

  /** The saturated bond passes every requirement a uint64 notional can set exactly when the true one does. */
  lemma ClampKeepsTheBondTest(bond: nat, amount: Uint64)
    ensures ClampUint64(Some(bond)) >= RequiredBond(amount) <==> bond >= RequiredBond(amount)
  {
  }

  /** The cached availability never exceeds the escrow's, and equals it while armed fits in 64 bits. */
  lemma AvailabilityIsConservative(reply: TakerReply, nowSec: Uint64)
    requires reply.committed <= reply.armed
    ensures Available(reply, nowSec) <= reply.armed - reply.committed
    ensures reply.armed < TWO64 && nowSec <= reply.armedUntil ==>
            Available(reply, nowSec) == reply.armed - reply.committed
  {
  }

  // ---- what a reading tells about the polls ----

  /** What a poll asks the node for. */
  datatype Ask = Price | Bond(maker: Address) | Funds(taker: Address)

  predicate Answered(p: Poll, ask: Ask) {
    match ask
    case Price => p.replies.feed.Some?
    case Bond(m) => m in p.makers && m in p.replies.bonds && p.replies.bonds[m].Some?
    case Funds(t) => t in p.takers && t in p.replies.takers && p.replies.takers[t].Some?
  }

  /** Poll i is the last of those that answered. */
  ghost predicate Last(polls: seq<Poll>, ask: Ask, i: int) {
    0 <= i < |polls| && Answered(polls[i], ask) && forall j :: i < j < |polls| ==> !Answered(polls[j], ask)
  }

  ghost predicate Never(polls: seq<Poll>, ask: Ask) {
    forall p | p in polls :: !Answered(p, ask)
  }

  lemma LastGrows(polls: seq<Poll>, ask: Ask, i: int)
    requires polls != []
    ensures var n := |polls| - 1;
            (Last(polls, ask, i) <==> if Answered(polls[n], ask) then i == n else Last(polls[..n], ask, i)) &&
            (Never(polls, ask) <==> !Answered(polls[n], ask) && Never(polls[..n], ask))
  {
    assert polls == polls[..|polls| - 1] + [polls[|polls| - 1]];
  }

  /** Either no poll answered or one of them was the last to. */
  lemma {:induction false} LastOrNever(polls: seq<Poll>, ask: Ask)
    ensures Never(polls, ask) || exists i :: Last(polls, ask, i)
  {
    if polls != [] {
      var n := |polls| - 1;
      LastOrNever(polls[..n], ask);
      LastGrows(polls, ask, n);
      if i :| Last(polls[..n], ask, i) {
        LastGrows(polls, ask, i);
      }
    }
  }

  /** v is the uint64 nearest to n. */
  predicate Nearest(n: int, v: Uint64) {
    v == n || n < v == 0 || n > v == 0xFFFF_FFFF_FFFF_FFFF
  }

  /** What a taker may spend: nothing once the arming has lapsed, else what is armed and not committed. */
  ghost predicate Spendable(reply: TakerReply, nowSec: Uint64, v: Uint64) {
    exists armed: Uint64, committed: Uint64 :: Nearest(reply.armed, armed) && Nearest(reply.committed, committed) &&
      v == if nowSec > reply.armedUntil || armed <= committed then 0 else armed - committed
  }

  /** v is the maker's bond as last answered, zero if it never was. */
  ghost predicate BondTold(polls: seq<Poll>, m: Address, v: Uint64) {
    (Never(polls, Bond(m)) ==> v == 0) &&
    forall i :: Last(polls, Bond(m), i) ==> Nearest(polls[i].replies.bonds[m].value, v)
  }

  /** v is what the taker could spend when the node last answered for him, by that poll's clock. */
  ghost predicate FundsTold(polls: seq<Poll>, t: Address, v: Uint64) {
    (Never(polls, Funds(t)) ==> v == 0) &&
    forall i :: Last(polls, Funds(t), i) ==>
      Spendable(polls[i].replies.takers[t].value, polls[i].replies.nowSec, v)
  }

  /** The price last answered, none if none was; its age passes the bound when it was fetched over a minute ago. */
  ghost predicate PriceTold(polls: seq<Poll>, now: int, mid: Option<int>, age: int) {
    (Never(polls, Price) ==> mid.None?) &&
    forall i :: Last(polls, Price, i) ==>
      mid == polls[i].replies.feed &&
      (age > MAX_PRICE_STALENESS <==> now - polls[i].replies.fetchedAt > 60_000_000_000)
  }

  /** The reading s says what the polls found out for this taker and these makers. */
  ghost predicate Tells(polls: seq<Poll>, taker: Address, makers: set<Address>, now: int, s: ChainSnapshot) {
    PriceTold(polls, now, s.mid, s.midAge) && FundsTold(polls, taker, s.takerAvailable) &&
    s.freeBond.Keys == makers && forall m | m in makers :: BondTold(polls, m, s.freeBond[m])
  }

  lemma {:induction false} PriceHeld(polls: seq<Poll>, i: int)
    requires Last(polls, Price, i)
    ensures Polled(polls).mid == polls[i].replies.feed && Polled(polls).midFetchAt == Some(polls[i].replies.fetchedAt)
  {
    if i < |polls| - 1 {
      LastGrows(polls, Price, i);
      PriceHeld(polls[..|polls| - 1], i);
    }
  }

  lemma {:induction false} BondHeld(polls: seq<Poll>, m: Address, i: int)
    requires Last(polls, Bond(m), i)
    ensures m in Polled(polls).bondFree && Polled(polls).bondFree[m] == ClampUint64(polls[i].replies.bonds[m])
  {
    if i < |polls| - 1 {
      LastGrows(polls, Bond(m), i);
      BondHeld(polls[..|polls| - 1], m, i);
    }
  }

  lemma {:induction false} FundsHeld(polls: seq<Poll>, t: Address, i: int)
    requires Last(polls, Funds(t), i)
    ensures t in Polled(polls).takerAvail
    ensures Polled(polls).takerAvail[t] == Available(polls[i].replies.takers[t].value, polls[i].replies.nowSec)
  {
    if i < |polls| - 1 {
      LastGrows(polls, Funds(t), i);
      FundsHeld(polls[..|polls| - 1], t, i);
    }
  }

  lemma {:induction false} NothingHeld(polls: seq<Poll>, ask: Ask)
    requires Never(polls, ask)
    ensures var c := Polled(polls);
            match ask
            case Price => c.mid.None? && c.midFetchAt.None?
            case Bond(m) => m !in c.bondFree
            case Funds(t) => t !in c.takerAvail
  {
    if polls != [] {
      LastGrows(polls, ask, 0);
      NothingHeld(polls[..|polls| - 1], ask);
    }
  }

  lemma AvailableIsSpendable(reply: TakerReply, nowSec: Uint64)
    ensures Spendable(reply, nowSec, Available(reply, nowSec))
  {
    var armed, committed := ClampUint64(Some(reply.armed)), ClampUint64(Some(reply.committed));
    assert Nearest(reply.armed, armed) && Nearest(reply.committed, committed);
  }

  lemma BondIsTold(polls: seq<Poll>, m: Address)
    ensures BondTold(polls, m, Cached(Polled(polls).bondFree, m))
  {
    if Never(polls, Bond(m)) {
      NothingHeld(polls, Bond(m));
    }
    forall i | Last(polls, Bond(m), i)
      ensures Nearest(polls[i].replies.bonds[m].value, Cached(Polled(polls).bondFree, m))
    {
      BondHeld(polls, m, i);
    }
  }

  lemma FundsAreTold(polls: seq<Poll>, t: Address)
    ensures FundsTold(polls, t, Cached(Polled(polls).takerAvail, t))
  {
    if Never(polls, Funds(t)) {
      NothingHeld(polls, Funds(t));
    }
    forall i | Last(polls, Funds(t), i)
      ensures Spendable(polls[i].replies.takers[t].value, polls[i].replies.nowSec, Cached(Polled(polls).takerAvail, t))
    {
      FundsHeld(polls, t, i);
      AvailableIsSpendable(polls[i].replies.takers[t].value, polls[i].replies.nowSec);
    }
  }

  /** Every reading is told by the polls that filled the cache. */
  lemma SnapshotTells(polls: seq<Poll>, staleMaxSec: int, taker: Address, makers: set<Address>, now: int)
    ensures Tells(polls, taker, makers, now, SnapshotOf(Polled(polls), staleMaxSec, taker, makers, now))
  {
    if Never(polls, Price) {
      NothingHeld(polls, Price);
    }
    forall i | Last(polls, Price, i) {
      PriceHeld(polls, i);
    }
    FundsAreTold(polls, taker);
    forall m | m in makers {
      BondIsTold(polls, m);
    }
  }

  /** A positive price was the last answer, and no more than a minute ago. */
  ghost predicate PriceKnown(polls: seq<Poll>, now: int) {
    exists i :: Last(polls, Price, i) && polls[i].replies.feed.value > 0 &&
                now - polls[i].replies.fetchedAt <= 60_000_000_000
  }

  /** The desk refuses for its price exactly when none is known that is positive and under a minute old. */
  lemma StaleExactly(polls: seq<Poll>, staleMaxSec: int, taker: Address, makers: set<Address>, now: int,
                     cfg: Config, escrow: Address, terms: Terms, quotes: seq<Quote>)
    ensures var s := Setting(cfg, escrow, terms, SnapshotOf(Polled(polls), staleMaxSec, taker, makers, now), now);
            (Decide(s, quotes) == Err(PriceStale)) <==> !PriceKnown(polls, now)
  {
    SnapshotTells(polls, staleMaxSec, taker, makers, now);
    LastOrNever(polls, Price);
  }
}
