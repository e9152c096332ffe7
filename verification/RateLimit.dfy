/** The rolling-24h limiter in front of the desk's spending routes (lib/demo/ratelimit.ts). */
module RateLimit {
  import opened Results

  const WINDOW_MS: int := 86_400_000

  datatype Kind =
    | DemoLock | DemoAttest | DemoPay | MakerFaucet | MakerOpenRfq | MakerJoinRfq
    | TakerOpenRfq | MakerQuote | MakerMatch | MakerSettle | MakerXrplAccount | MakerPay

  function PerIp(kind: Kind): nat {
    match kind
    case DemoLock => 3
    case MakerOpenRfq => 3
    case MakerJoinRfq => 30
    case MakerQuote => 8
    case _ => 5
  }

  function Global(kind: Kind): nat {
    match kind
    case DemoLock => 20
    case MakerOpenRfq => 20
    case MakerJoinRfq => 200
    case TakerOpenRfq => 40
    case MakerQuote => 40
    case _ => 30
  }

  datatype Scope = Ip | Everyone
  datatype Verdict = Granted | Refused(retryAfterSeconds: nat, scope: Scope)

  // ---- the two pure helpers ----

  function PruneOld(timestamps: seq<int>, now: int): seq<int> {
    if timestamps == [] then []
    else
      var rest, last := timestamps[..|timestamps| - 1], timestamps[|timestamps| - 1];
      if now - last < WINDOW_MS then PruneOld(rest, now) + [last] else PruneOld(rest, now)
  }

  function Oldest(timestamps: seq<int>): int
    requires timestamps != []
  {
    if |timestamps| == 1 then timestamps[0]
    else
      var first := Oldest(timestamps[..|timestamps| - 1]);
      var last := timestamps[|timestamps| - 1];
      if last < first then last else first
  }

  function CeilDiv(n: int, d: nat): int
    requires d > 0
  {
    -(-n / d)
  }

  function RetryAfterFrom(timestamps: seq<int>, now: int): nat {
    if timestamps == [] then 0
    else
      var seconds := CeilDiv(Oldest(timestamps) + WINDOW_MS - now, 1000);
      if seconds < 0 then 0 else seconds
  }

  // ---- the limiter ----

  datatype State = State(ipHits: map<Kind, map<string, seq<int>>>, globalHits: map<Kind, seq<int>>)

  function IpList(s: State, kind: Kind, ip: string): seq<int> {
    if kind in s.ipHits && ip in s.ipHits[kind] then s.ipHits[kind][ip] else []
  }

  function GlobalList(s: State, kind: Kind): seq<int> {
    if kind in s.globalHits then s.globalHits[kind] else []
  }

  /** The inner map is created on first use. */
  function Touch(s: State, kind: Kind): State {
    if kind in s.ipHits then s else s.(ipHits := s.ipHits[kind := map[]])
  }

  function WithIp(s: State, kind: Kind, ip: string, hits: seq<int>): State
    requires kind in s.ipHits
  {
    var perKind := s.ipHits[kind][ip := hits];
    s.(ipHits := s.ipHits[kind := perKind])
  }

  /** The two caps, applied to the pruned lists. */
  function Settle(t: State, kind: Kind, ip: string, now: int, mine: seq<int>, all: seq<int>): (State, Verdict)
    requires kind in t.ipHits
  {
    if |mine| >= PerIp(kind) then (WithIp(t, kind, ip, mine), Refused(RetryAfterFrom(mine, now), Ip))
    else if |all| >= Global(kind) then
      (t.(globalHits := t.globalHits[kind := all]), Refused(RetryAfterFrom(all, now), Everyone))
    else (WithIp(t, kind, ip, mine + [now]).(globalHits := t.globalHits[kind := all + [now]]), Granted)
  }

  function CheckAndConsume(s: State, kind: Kind, ip: string, now: int): (State, Verdict) {
    var t := Touch(s, kind);
    Settle(t, kind, ip, now, PruneOld(IpList(t, kind, ip), now), PruneOld(GlobalList(t, kind), now))
  }

  class RateLimiter {
    var ipHits: map<Kind, map<string, seq<int>>>
    var globalHits: map<Kind, seq<int>>

    function Contents(): State
      reads this
    {
      State(ipHits, globalHits)
    }

    constructor ()
      ensures Contents() == State(map[], map[])
    {
      ipHits, globalHits := map[], map[];
    }

    method Consume(kind: Kind, ip: string, now: int) returns (v: Verdict)
      modifies this
      ensures (Contents(), v) == CheckAndConsume(old(Contents()), kind, ip, now)
    {
      ghost var t := Touch(Contents(), kind);
      if kind !in ipHits {
        ipHits := ipHits[kind := map[]];
      }
      assert Contents() == t;
      var perKind := ipHits[kind];
      var mine := PruneOld(if ip in perKind then perKind[ip] else [], now);
      var all := PruneOld(if kind in globalHits then globalHits[kind] else [], now);
      assert mine == PruneOld(IpList(t, kind, ip), now) && all == PruneOld(GlobalList(t, kind), now);
      v := Write(kind, ip, now, mine, all);
    }

    /** The branches on the caps, and what each writes back. */
    method Write(kind: Kind, ip: string, now: int, pruned: seq<int>, all: seq<int>) returns (v: Verdict)
      requires kind in ipHits
      modifies this
      ensures (Contents(), v) == Settle(old(Contents()), kind, ip, now, pruned, all)
    {
      var mine := pruned;
      if |mine| >= PerIp(kind) {
        Remember(kind, ip, mine);
        return Refused(RetryAfterFrom(mine, now), Ip);
      }
      if |all| >= Global(kind) {
        globalHits := globalHits[kind := all];
        return Refused(RetryAfterFrom(all, now), Everyone);
      }
      mine := mine + [now];
      Remember(kind, ip, mine);
      globalHits := globalHits[kind := all + [now]];
      return Granted;
    }

    /** perKindIpHits.set(ip, hits), on the inner map that is there by now. */
    method Remember(kind: Kind, ip: string, hits: seq<int>)
      requires kind in ipHits
      modifies this
      ensures Contents() == WithIp(old(Contents()), kind, ip, hits)
    {
      var perKind := ipHits[kind][ip := hits];
      ipHits := ipHits[kind := perKind];
    }
  }

  // ---- runs ----

  datatype Request = Request(kind: Kind, ip: string, now: int)

  function After(requests: seq<Request>): State {
    if requests == [] then State(map[], map[])
    else
      var r := requests[|requests| - 1];
      CheckAndConsume(After(requests[..|requests| - 1]), r.kind, r.ip, r.now).0
  }

  function VerdictOn(requests: seq<Request>, r: Request): Verdict {
    CheckAndConsume(After(requests), r.kind, r.ip, r.now).1
  }

  /** The accepted requests of a run, in order: the history the limiter itself forgets. */
  function Accepted(requests: seq<Request>): seq<Request> {
    if requests == [] then []
    else
      var before, r := requests[..|requests| - 1], requests[|requests| - 1];
      Accepted(before) + if VerdictOn(before, r).Granted? then [r] else []
  }

  ghost predicate ClockRuns(requests: seq<Request>) {
    forall i, j | 0 <= i < j < |requests| :: requests[i].now <= requests[j].now
  }

  /** Whose hits are counted: everyone's of a kind, or one address's. */
  datatype Bucket = Bucket(kind: Kind, ip: Option<string>) {
    predicate Holds(r: Request) {
      r.kind == kind && (ip.None? || ip.value == r.ip)
    }

    function Cap(): nat {
      if ip.None? then Global(kind) else PerIp(kind)
    }

    function Stored(s: State): seq<int> {
      if ip.None? then GlobalList(s, kind) else IpList(s, kind, ip.value)
    }
  }

  /** The times a bucket was hit. */
  function Hits(log: seq<Request>, b: Bucket): seq<int> {
    if log == [] then []
    else
      var rest, last := Hits(log[..|log| - 1], b), log[|log| - 1];
      if b.Holds(last) then rest + [last.now] else rest
  }

  function HitsIn(times: seq<int>, a: int): nat {
    if times == [] then 0
    else
      var last := times[|times| - 1];
      HitsIn(times[..|times| - 1], a) + if a <= last < a + WINDOW_MS then 1 else 0
  }

  lemma {:induction false} PruneTwice(times: seq<int>, t: int, now: int)
    requires t <= now
    ensures PruneOld(PruneOld(times, t), now) == PruneOld(times, now)
  {
    if times != [] {
      var rest, last := times[..|times| - 1], times[|times| - 1];
      PruneTwice(rest, t, now);
      if t - last < WINDOW_MS {
        assert PruneOld(times, t)[..|PruneOld(rest, t)|] == PruneOld(rest, t);
      }
    }
  }

  lemma PruneSnoc(times: seq<int>, last: int, now: int)
    ensures PruneOld(times + [last], now) == PruneOld(times, now) + if now - last < WINDOW_MS then [last] else []
  {
    assert (times + [last])[..|times|] == times;
  }

  lemma HitsSnoc(log: seq<Request>, r: Request, b: Bucket)
    ensures Hits(log + [r], b) == Hits(log, b) + if b.Holds(r) then [r.now] else []
  {
    assert (log + [r])[..|log|] == log;
  }

  /** Forgetting old hits loses nothing: pruned now, the stored list and the full history are the same. */
  ghost predicate Faithful(s: State, log: seq<Request>, b: Bucket, from: int) {
    forall now | now >= from :: FaithfulAt(s, log, b, now)
  }

  ghost predicate FaithfulAt(s: State, log: seq<Request>, b: Bucket, now: int) {
    PruneOld(b.Stored(s), now) == PruneOld(Hits(log, b), now)
  }

  /** A consume leaves a bucket's list alone, prunes it, or prunes it and appends the hit it grants. */
  lemma StoredAfter(s: State, b: Bucket, r: Request)
    ensures var (t, v) := CheckAndConsume(s, r.kind, r.ip, r.now);
            var kept := PruneOld(b.Stored(s), r.now);
            if v.Granted? && b.Holds(r) then b.Stored(t) == kept + [r.now]
            else b.Stored(t) == b.Stored(s) || b.Stored(t) == kept
  {
  }

  lemma PruneThenAppend(stored: seq<int>, full: seq<int>, t: int, now: int)
    requires t <= now && PruneOld(stored, now) == PruneOld(full, now)
    ensures PruneOld(PruneOld(stored, t), now) == PruneOld(full, now)
    ensures PruneOld(PruneOld(stored, t) + [t], now) == PruneOld(full + [t], now)
  {
    PruneTwice(stored, t, now);
    PruneSnoc(PruneOld(stored, t), t, now);
    PruneSnoc(full, t, now);
  }

  /** What is stored after a consume at t shows the same hits from t on as the full history does. */
  lemma StoredStaysFaithful(stored: seq<int>, after: seq<int>, full: seq<int>, hit: seq<int>, t: int, now: int)
    requires t <= now && PruneOld(stored, now) == PruneOld(full, now)
    requires if hit == [] then after == stored || after == PruneOld(stored, t)
             else hit == [t] && after == PruneOld(stored, t) + [t]
    ensures PruneOld(after, now) == PruneOld(full + hit, now)
  {
    if hit == [] {
      assert full + hit == full;
      if after == PruneOld(stored, t) {
        PruneTwice(stored, t, now);
      }
    } else {
      PruneThenAppend(stored, full, t, now);
    }
  }

  function LogAfter(s: State, log: seq<Request>, r: Request): seq<Request> {
    if CheckAndConsume(s, r.kind, r.ip, r.now).1.Granted? then log + [r] else log
  }

  /** The hits a request adds to a bucket. */
  function HitOf(s: State, b: Bucket, r: Request): seq<int> {
    if CheckAndConsume(s, r.kind, r.ip, r.now).1.Granted? && b.Holds(r) then [r.now] else []
  }

  lemma HistoryAfter(s: State, log: seq<Request>, b: Bucket, r: Request)
    ensures Hits(LogAfter(s, log, r), b) == Hits(log, b) + HitOf(s, b, r)
  {
    HitsSnoc(log, r, b);
  }

  lemma ConsumeIsFaithfulAt(s: State, log: seq<Request>, b: Bucket, r: Request, now: int)
    requires FaithfulAt(s, log, b, now) && r.now <= now
    ensures FaithfulAt(CheckAndConsume(s, r.kind, r.ip, r.now).0, LogAfter(s, log, r), b, now)
  {
    HistoryAfter(s, log, b, r);
    StoredAfter(s, b, r);
    StoredStaysFaithful(b.Stored(s), b.Stored(CheckAndConsume(s, r.kind, r.ip, r.now).0), Hits(log, b), HitOf(s, b, r),
                        r.now, now);
  }

  lemma ConsumeIsFaithful(s: State, log: seq<Request>, b: Bucket, r: Request)
    requires Faithful(s, log, b, r.now)
    ensures Faithful(CheckAndConsume(s, r.kind, r.ip, r.now).0, LogAfter(s, log, r), b, r.now)
  {
    forall now | now >= r.now
      ensures FaithfulAt(CheckAndConsume(s, r.kind, r.ip, r.now).0, LogAfter(s, log, r), b, now)
    {
      ConsumeIsFaithfulAt(s, log, b, r, now);
    }
  }

  // ---- what the full history satisfies ----

  lemma HitsInSnoc(times: seq<int>, last: int, a: int)
    ensures HitsIn(times + [last], a) == HitsIn(times, a) + if a <= last < a + WINDOW_MS then 1 else 0
  {
    assert (times + [last])[..|times|] == times;
  }

  /** Hits in any window that reaches now are hits the limiter still sees at now. */
  lemma {:induction false} WindowIsVisible(times: seq<int>, a: int, now: int)
    requires a <= now < a + WINDOW_MS
    ensures HitsIn(times, a) <= |PruneOld(times, now)|
  {
    if times != [] {
      WindowIsVisible(times[..|times| - 1], a, now);
    }
  }

  ghost predicate Past(times: seq<int>, now: int) {
    forall i | 0 <= i < |times| :: times[i] <= now
  }

  ghost predicate NeverOver(times: seq<int>, cap: nat) {
    forall a :: FitsFrom(times, cap, a)
  }

  ghost predicate FitsFrom(times: seq<int>, cap: nat, a: int) {
    HitsIn(times, a) <= cap
  }

  /** The invariant of a run, one bucket at a time. */
  ghost predicate Sound(s: State, log: seq<Request>, b: Bucket, from: int) {
    Faithful(s, log, b, from) && Past(Hits(log, b), from) && NeverOver(Hits(log, b), b.Cap())
  }

  /** A grant finds room in both its buckets, a refusal finds the bucket it names full. */
  lemma VerdictByHistory(s: State, log: seq<Request>, b: Bucket, r: Request)
    requires FaithfulAt(s, log, b, r.now) && b.Holds(r)
    ensures var v := CheckAndConsume(s, r.kind, r.ip, r.now).1;
            var visible := PruneOld(Hits(log, b), r.now);
            (v.Granted? ==> |visible| < b.Cap()) &&
            (b.ip.Some? ==> (v.Refused? && v.scope == Ip <==> |visible| >= b.Cap())) &&
            (v.Refused? && v.scope == (if b.ip.Some? then Ip else Everyone) ==>
               |visible| >= b.Cap() && v.retryAfterSeconds == RetryAfterFrom(visible, r.now))
  {
  }

  lemma AppendFitsFrom(times: seq<int>, now: int, cap: nat, a: int)
    requires FitsFrom(times, cap, a) && |PruneOld(times, now)| < cap
    ensures FitsFrom(times + [now], cap, a)
  {
    HitsInSnoc(times, now, a);
    if a <= now < a + WINDOW_MS {
      WindowIsVisible(times, a, now);
    }
  }

  lemma AppendKeepsCap(times: seq<int>, now: int, cap: nat)
    requires NeverOver(times, cap) && |PruneOld(times, now)| < cap
    ensures NeverOver(times + [now], cap)
  {
    forall a
      ensures FitsFrom(times + [now], cap, a)
    {
      assert FitsFrom(times, cap, a);
      AppendFitsFrom(times, now, cap, a);
    }
  }

  /** The history grows by a hit that finds room, or not at all. */
  lemma HistoryStaysSound(s: State, log: seq<Request>, b: Bucket, r: Request)
    requires FaithfulAt(s, log, b, r.now) && Past(Hits(log, b), r.now) && NeverOver(Hits(log, b), b.Cap())
    ensures Past(Hits(LogAfter(s, log, r), b), r.now) && NeverOver(Hits(LogAfter(s, log, r), b), b.Cap())
  {
    if CheckAndConsume(s, r.kind, r.ip, r.now).1.Granted? {
      HitsSnoc(log, r, b);
      if b.Holds(r) {
        VerdictByHistory(s, log, b, r);
        AppendKeepsCap(Hits(log, b), r.now, b.Cap());
      } else {
        assert Hits(log, b) + [] == Hits(log, b);
      }
    }
  }

  lemma ConsumeIsSound(s: State, log: seq<Request>, b: Bucket, r: Request)
    requires Sound(s, log, b, r.now)
    ensures Sound(CheckAndConsume(s, r.kind, r.ip, r.now).0, LogAfter(s, log, r), b, r.now)
  {
    ConsumeIsFaithful(s, log, b, r);
    assert FaithfulAt(s, log, b, r.now);
    HistoryStaysSound(s, log, b, r);
  }

  lemma ClockBefore(requests: seq<Request>, r: Request)
    requires ClockRuns(requests + [r])
    ensures ClockRuns(requests) && (requests != [] ==> r.now >= requests[|requests| - 1].now)
  {
    var all := requests + [r];
    assert forall i | 0 <= i < |requests| :: all[i] == requests[i];
    assert all[|requests|] == r;
  }

  lemma NothingIsSound(b: Bucket, from: int)
    ensures Sound(State(map[], map[]), [], b, from)
  {
  }

  lemma {:induction false} RunIsSound(requests: seq<Request>, b: Bucket, from: int)
    requires ClockRuns(requests) && (requests != [] ==> from >= requests[|requests| - 1].now)
    ensures Sound(After(requests), Accepted(requests), b, from)
  {
    if requests == [] {
      NothingIsSound(b, from);
    } else {
      var before, r := requests[..|requests| - 1], requests[|requests| - 1];
      assert before + [r] == requests;
      ClockBefore(before, r);
      RunIsSound(before, b, r.now);
      ConsumeIsSound(After(before), Accepted(before), b, r);
      RunUnfolds(before, r);
      SoundLater(After(requests), Accepted(requests), b, r.now, from);
    }
  }

  lemma RunUnfolds(before: seq<Request>, r: Request)
    ensures After(before + [r]) == CheckAndConsume(After(before), r.kind, r.ip, r.now).0
    ensures Accepted(before + [r]) == LogAfter(After(before), Accepted(before), r)
  {
    assert (before + [r])[..|before|] == before;
    assert Accepted(before) + [] == Accepted(before);
  }

  lemma SoundLater(s: State, log: seq<Request>, b: Bucket, from: int, later: int)
    requires Sound(s, log, b, from) && from <= later
    ensures Sound(s, log, b, later)
  {
  }

  /** The limiter decides as one that remembers every hit: a bucket blocks exactly when its window is full. */
  lemma DecidesByHistory(requests: seq<Request>, r: Request)
    requires ClockRuns(requests + [r])
    ensures var mine := |PruneOld(Hits(Accepted(requests), Bucket(r.kind, Some(r.ip))), r.now)|;
            var all := |PruneOld(Hits(Accepted(requests), Bucket(r.kind, None)), r.now)|;
            var v := VerdictOn(requests, r);
            (v.Granted? <==> mine < PerIp(r.kind) && all < Global(r.kind)) &&
            (v.Refused? && v.scope == Ip <==> mine >= PerIp(r.kind))
  {
    ClockBefore(requests, r);
    RunIsSound(requests, Bucket(r.kind, Some(r.ip)), r.now);
    RunIsSound(requests, Bucket(r.kind, None), r.now);
    assert FaithfulAt(After(requests), Accepted(requests), Bucket(r.kind, Some(r.ip)), r.now);
    assert FaithfulAt(After(requests), Accepted(requests), Bucket(r.kind, None), r.now);
    VerdictByHistory(After(requests), Accepted(requests), Bucket(r.kind, Some(r.ip)), r);
    VerdictByHistory(After(requests), Accepted(requests), Bucket(r.kind, None), r);
  }

  /** In every run, every half-open 24 hours hold at most the bucket's cap of accepted calls. */
  lemma NoWindowOverflows(requests: seq<Request>, b: Bucket, a: int)
    requires ClockRuns(requests)
    ensures HitsIn(Hits(Accepted(requests), b), a) <= b.Cap()
  {
    RunIsSound(requests, b, if requests == [] then 0 else requests[|requests| - 1].now);
    assert FitsFrom(Hits(Accepted(requests), b), b.Cap(), a);
  }

  // ---- the advice to come back later ----

  lemma {:induction false} OldestIsLeast(times: seq<int>)
    requires times != []
    ensures exists i :: 0 <= i < |times| && times[i] == Oldest(times)
    ensures forall i | 0 <= i < |times| :: Oldest(times) <= times[i]
  {
    if |times| == 1 {
      assert times[0] == Oldest(times);
    } else {
      var rest := times[..|times| - 1];
      OldestIsLeast(rest);
      var i :| 0 <= i < |rest| && rest[i] == Oldest(rest);
      assert times[if Oldest(times) == Oldest(rest) then i else |times| - 1] == Oldest(times);
    }
  }

  lemma {:induction false} PrunedAre(times: seq<int>, now: int)
    ensures |PruneOld(times, now)| <= |times|
    ensures |PruneOld(times, now)| == |times| <==> forall i | 0 <= i < |times| :: now - times[i] < WINDOW_MS
  {
    if times != [] {
      var rest, last := times[..|times| - 1], times[|times| - 1];
      PrunedAre(rest, now);
      assert times == rest + [last];
    }
  }

  /** A full bucket stays full until its oldest visible hit leaves the window, and no longer. */
  lemma FullUntilOldestLeaves(visible: seq<int>, later: int)
    requires visible != []
    ensures |PruneOld(visible, later)| <= |visible|
    ensures |PruneOld(visible, later)| == |visible| <==> later < Oldest(visible) + WINDOW_MS
  {
    OldestIsLeast(visible);
    PrunedAre(visible, later);
  }

  lemma {:induction false} VisibleFitsWindow(times: seq<int>, now: int)
    requires Past(times, now)
    ensures |PruneOld(times, now)| == HitsIn(times, now - WINDOW_MS + 1)
  {
    if times != [] {
      VisibleFitsWindow(times[..|times| - 1], now);
    }
  }

  lemma CeilingReaches(n: int)
    ensures 1000 * (CeilDiv(n, 1000) - 1) < n <= 1000 * CeilDiv(n, 1000)
  {
  }

  function Named(r: Request, scope: Scope): Bucket {
    Bucket(r.kind, if scope == Ip then Some(r.ip) else None)
  }

  lemma CapsArePositive(b: Bucket)
    ensures b.Cap() > 0
  {
  }

  lemma {:induction false} VisibleAreYoung(times: seq<int>, now: int)
    ensures forall i | 0 <= i < |PruneOld(times, now)| :: now - PruneOld(times, now)[i] < WINDOW_MS
  {
    if times != [] {
      VisibleAreYoung(times[..|times| - 1], now);
    }
  }

  lemma VisibleFitCap(times: seq<int>, now: int, cap: nat)
    requires Past(times, now) && NeverOver(times, cap)
    ensures |PruneOld(times, now)| <= cap
  {
    VisibleFitsWindow(times, now);
    assert FitsFrom(times, cap, now - WINDOW_MS + 1);
  }

  /** A window that is full is exactly full, and its retry time is when its oldest hit leaves. */
  lemma FullWindow(times: seq<int>, now: int, cap: nat)
    requires Past(times, now) && NeverOver(times, cap) && |PruneOld(times, now)| >= cap > 0
    ensures |PruneOld(times, now)| == cap
    ensures RetryAfterFrom(PruneOld(times, now), now) == CeilDiv(Oldest(PruneOld(times, now)) + WINDOW_MS - now, 1000)
  {
    VisibleFitCap(times, now, cap);
    VisibleAreYoung(times, now);
    OldestIsLeast(PruneOld(times, now));
    CeilingReaches(Oldest(PruneOld(times, now)) + WINDOW_MS - now);
  }

  /** A full window blocks until its oldest hit leaves, and no longer; the retry time is the least to reach that. */
  lemma FullWindowEnds(times: seq<int>, now: int, cap: nat, later: int)
    requires Past(times, now) && NeverOver(times, cap) && |PruneOld(times, now)| >= cap > 0 && later >= now
    ensures var visible := PruneOld(times, now);
            var wait := RetryAfterFrom(visible, now);
            var blocked := |PruneOld(times, later)| >= cap;
            (blocked <==> later < Oldest(visible) + WINDOW_MS) &&
            (later >= now + 1000 * wait ==> !blocked) && (later <= now + 1000 * (wait - 1) ==> blocked)
  {
    var visible := PruneOld(times, now);
    FullWindow(times, now, cap);
    PruneTwice(times, now, later);
    FullUntilOldestLeaves(visible, later);
    WaitReaches(Oldest(visible), now, later);
  }

  /** A refusal names a bucket that is exactly full, and reports when its oldest visible hit leaves. */
  lemma RefusedMeansFull(s: State, log: seq<Request>, b: Bucket, r: Request)
    requires Sound(s, log, b, r.now)
    requires var v := CheckAndConsume(s, r.kind, r.ip, r.now).1; v.Refused? && b == Named(r, v.scope)
    ensures var visible := PruneOld(Hits(log, b), r.now);
            |visible| == b.Cap() > 0 &&
            CheckAndConsume(s, r.kind, r.ip, r.now).1.retryAfterSeconds ==
            CeilDiv(Oldest(visible) + WINDOW_MS - r.now, 1000)
  {
    assert FaithfulAt(s, log, b, r.now);
    VerdictByHistory(s, log, b, r);
    CapsArePositive(b);
    FullWindow(Hits(log, b), r.now, b.Cap());
  }

  /**
   Retry-after is sound and minimal. As long as the named bucket takes no further hit, it blocks at
   any later time up to, and not from, the instant its oldest visible hit leaves; the reported
   seconds are the least whole number that reach it.
   */
  lemma RetryAfterIsExact(requests: seq<Request>, r: Request, b: Bucket, more: seq<Request>, later: int)
    requires ClockRuns(requests + [r]) && VerdictOn(requests, r).Refused? && later >= r.now
    requires b == Named(r, VerdictOn(requests, r).scope) && Hits(Accepted(more), b) == Hits(Accepted(requests), b)
    ensures var visible := PruneOld(Hits(Accepted(requests), b), r.now);
            var wait := VerdictOn(requests, r).retryAfterSeconds;
            var blocked := |PruneOld(Hits(Accepted(more), b), later)| >= b.Cap();
            visible != [] && (blocked <==> later < Oldest(visible) + WINDOW_MS) &&
            (later >= r.now + 1000 * wait ==> !blocked) && (later <= r.now + 1000 * (wait - 1) ==> blocked)
  {
    ClockBefore(requests, r);
    RunIsSound(requests, b, r.now);
    RetryStep(After(requests), Accepted(requests), b, r, later);
  }

  lemma RetryStep(s: State, log: seq<Request>, b: Bucket, r: Request, later: int)
    requires Sound(s, log, b, r.now) && later >= r.now
    requires var v := CheckAndConsume(s, r.kind, r.ip, r.now).1; v.Refused? && b == Named(r, v.scope)
    ensures var visible := PruneOld(Hits(log, b), r.now);
            var wait := CheckAndConsume(s, r.kind, r.ip, r.now).1.retryAfterSeconds;
            var blocked := |PruneOld(Hits(log, b), later)| >= b.Cap();
            visible != [] && (blocked <==> later < Oldest(visible) + WINDOW_MS) &&
            (later >= r.now + 1000 * wait ==> !blocked) && (later <= r.now + 1000 * (wait - 1) ==> blocked)
  {
    assert FaithfulAt(s, log, b, r.now);
    VerdictByHistory(s, log, b, r);
    CapsArePositive(b);
    FullWindow(Hits(log, b), r.now, b.Cap());
    FullWindowEnds(Hits(log, b), r.now, b.Cap(), later);
  }

  lemma WaitReaches(oldest: int, now: int, later: int)
    ensures var wait := CeilDiv(oldest + WINDOW_MS - now, 1000);
            (later >= now + 1000 * wait ==> later >= oldest + WINDOW_MS) &&
            (later <= now + 1000 * (wait - 1) ==> later < oldest + WINDOW_MS)
  {
    CeilingReaches(oldest + WINDOW_MS - now);
  }
}
