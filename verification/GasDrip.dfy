/** The gas drip: its claim book, and the route around it as interleaved steps (wallet-mode.ts, gas/route.ts). */
module GasDrip {
  import opened Bytes
  import opened Results

  const DRIP: nat := 500_000_000_000_000_000
  const RESERVE: nat := 15_000_000_000_000_000_000
  const DAILY_BUDGET: nat := 10_000_000_000_000_000_000
  const RATE_LIMIT_MS: int := 600_000
  const DAY_MS: int := 86_400_000

  datatype Refusal = RateLimited | BudgetExhausted

  /** The UTC day of a time, in place of its ISO date. */
  function DayOf(now: int): int { now / DAY_MS }

  datatype Claims = Claims(last: map<Address, int>, spentToday: nat, day: Option<int>)

  const NO_CLAIMS := Claims(map[], 0, None)

  function Claim(c: Claims, who: Address, now: int): (Claims, Option<Refusal>) {
    if who in c.last && now - c.last[who] < RATE_LIMIT_MS then (c, Some(RateLimited))
    else
      var d := if c.day == Some(DayOf(now)) then c else c.(day := Some(DayOf(now)), spentToday := 0);
      if d.spentToday + DRIP > DAILY_BUDGET then (d, Some(BudgetExhausted))
      else (d.(spentToday := d.spentToday + DRIP, last := d.last[who := now]), None)
  }

  class ClaimBook {
    var last: map<Address, int>
    var spentToday: nat
    var day: Option<int>

    function Contents(): Claims
      reads this
    {
      Claims(last, spentToday, day)
    }

    constructor ()
      ensures Contents() == NO_CLAIMS
    {
      last, spentToday, day := map[], 0, None;
    }

    method CheckAndRecord(who: Address, now: int) returns (r: Option<Refusal>)
      modifies this
      ensures (Contents(), r) == Claim(old(Contents()), who, now)
    {
      if who in last && now - last[who] < RATE_LIMIT_MS {
        return Some(RateLimited);
      }
      var today := DayOf(now);
      if day != Some(today) {
        day := Some(today);
        spentToday := 0;
      }
      if spentToday + DRIP > DAILY_BUDGET {
        return Some(BudgetExhausted);
      }
      spentToday := spentToday + DRIP;
      last := last[who := now];
      return None;
    }
  }

  // ---- runs of claims ----

  datatype Ask = Ask(who: Address, now: int)

  function After(asks: seq<Ask>): Claims {
    if asks == [] then NO_CLAIMS
    else Claim(After(asks[..|asks| - 1]), asks[|asks| - 1].who, asks[|asks| - 1].now).0
  }

  predicate IsGranted(before: seq<Ask>, a: Ask) {
    Claim(After(before), a.who, a.now).1.None?
  }

  function Granted(asks: seq<Ask>): seq<Ask> {
    if asks == [] then []
    else
      var before, a := asks[..|asks| - 1], asks[|asks| - 1];
      Granted(before) + if IsGranted(before, a) then [a] else []
  }

  /** now falls within the day-th 24 hours since midnight UTC of 1 January 1970. */
  predicate IsOn(now: int, day: int) {
    day * 86_400_000 <= now < (day + 1) * 86_400_000
  }

  function GrantedOn(grants: seq<Ask>, day: int): nat {
    if grants == [] then 0
    else GrantedOn(grants[..|grants| - 1], day) + if IsOn(grants[|grants| - 1].now, day) then 1 else 0
  }

  ghost predicate ClockRuns(asks: seq<Ask>) {
    forall i, j | 0 <= i < j < |asks| :: asks[i].now <= asks[j].now
  }

  /** `last` is at least as late as every grant to its address, and grants to one address are spaced. */
  ghost predicate Spaced(c: Claims, grants: seq<Ask>) {
    (forall i | 0 <= i < |grants| :: grants[i].who in c.last && grants[i].now <= c.last[grants[i].who]) &&
    (forall i, j | 0 <= i < j < |grants| && grants[i].who == grants[j].who ::
       grants[j].now - grants[i].now >= RATE_LIMIT_MS)
  }

  /** The counter is today's grants, no later day has any, and no day is over budget. */
  ghost predicate Budgeted(c: Claims, grants: seq<Ask>, now: int) {
    (forall day :: GrantedOn(grants, day) <= 20) &&
    match c.day
    case None => grants == [] && c.spentToday == 0
    case Some(today) =>
      today <= DayOf(now) && c.spentToday == DRIP * GrantedOn(grants, today) &&
      forall day | day > today :: GrantedOn(grants, day) == 0
  }

  lemma GrantedOnSnoc(grants: seq<Ask>, a: Ask, day: int)
    ensures GrantedOn(grants + [a], day) == GrantedOn(grants, day) + if IsOn(a.now, day) then 1 else 0
  {
    assert (grants + [a])[..|grants|] == grants;
  }

  lemma DayIsOn(now: int, day: int)
    ensures IsOn(now, day) <==> day == DayOf(now)
  {
  }

  lemma DaysRun(a: int, b: int)
    requires a <= b
    ensures DayOf(a) <= DayOf(b)
  {
  }

  lemma ClaimIsSpaced(c: Claims, grants: seq<Ask>, a: Ask)
    requires Spaced(c, grants)
    requires a.who in c.last ==> c.last[a.who] <= a.now
    ensures var (d, r) := Claim(c, a.who, a.now); Spaced(d, if r.None? then grants + [a] else grants)
  {
  }

  lemma ClaimIsBudgeted(c: Claims, grants: seq<Ask>, now: int, a: Ask)
    requires Budgeted(c, grants, now) && now <= a.now
    ensures var (d, r) := Claim(c, a.who, a.now); Budgeted(d, if r.None? then grants + [a] else grants, a.now)
  {
    DaysRun(now, a.now);
    var today := DayOf(a.now);
    var (d, r) := Claim(c, a.who, a.now);
    if r.None? {
      assert d.spentToday == DRIP * GrantedOn(grants, today) + DRIP <= DAILY_BUDGET;
      forall day
        ensures GrantedOn(grants + [a], day) <= 20
        ensures day > today ==> GrantedOn(grants + [a], day) == 0
      {
        GrantedOnSnoc(grants, a, day);
        DayIsOn(a.now, day);
      }
      GrantedOnSnoc(grants, a, today);
      DayIsOn(a.now, today);
    }
  }

  ghost predicate Sound(c: Claims, grants: seq<Ask>, now: int) {
    Spaced(c, grants) && Budgeted(c, grants, now) && forall who | who in c.last :: c.last[who] <= now
  }

  lemma ClaimIsSound(c: Claims, grants: seq<Ask>, now: int, a: Ask)
    requires Sound(c, grants, now) && now <= a.now
    ensures var (d, r) := Claim(c, a.who, a.now); Sound(d, if r.None? then grants + [a] else grants, a.now)
  {
    ClaimIsSpaced(c, grants, a);
    ClaimIsBudgeted(c, grants, now, a);
  }

  lemma RunUnfolds(before: seq<Ask>, a: Ask)
    ensures After(before + [a]) == Claim(After(before), a.who, a.now).0
    ensures Granted(before + [a]) ==
            if Claim(After(before), a.who, a.now).1.None? then Granted(before) + [a] else Granted(before)
  {
    assert (before + [a])[..|before|] == before;
    assert Granted(before) + [] == Granted(before);
  }

  lemma SoundLater(c: Claims, grants: seq<Ask>, now: int, later: int)
    requires Sound(c, grants, now) && now <= later
    ensures Sound(c, grants, later)
  {
    DaysRun(now, later);
  }

  lemma ClockBefore(before: seq<Ask>, a: Ask)
    requires ClockRuns(before + [a])
    ensures ClockRuns(before) && (before != [] ==> a.now >= before[|before| - 1].now)
  {
    var all := before + [a];
    assert forall i | 0 <= i < |before| :: all[i] == before[i];
    assert all[|before|] == a;
  }

  lemma NothingIsSound(now: int)
    ensures Sound(NO_CLAIMS, [], now)
  {
    assert forall day :: GrantedOn([], day) == 0;
  }

  lemma {:induction false} RunIsSound(asks: seq<Ask>, now: int)
    requires ClockRuns(asks) && (asks != [] ==> now >= asks[|asks| - 1].now)
    ensures Sound(After(asks), Granted(asks), now)
  {
    if asks == [] {
      NothingIsSound(now);
    } else {
      var before, a := asks[..|asks| - 1], asks[|asks| - 1];
      assert before + [a] == asks;
      ClockBefore(before, a);
      RunIsSound(before, a.now);
      RunUnfolds(before, a);
      ClaimIsSound(After(before), Granted(before), a.now, a);
      SoundLater(After(asks), Granted(asks), a.now, now);
    }
  }

  /** Over every run: at most 20 drips a UTC day. */
  lemma DailyDripsAreCapped(asks: seq<Ask>, day: int)
    requires ClockRuns(asks)
    ensures GrantedOn(Granted(asks), day) <= 20
  {
    RunIsSound(asks, if asks == [] then 0 else asks[|asks| - 1].now);
  }

  /** Over every run: ten minutes between two drips to one address. */
  lemma DripsAreRationed(asks: seq<Ask>, i: nat, j: nat)
    requires ClockRuns(asks) && i < j < |Granted(asks)|
    ensures Granted(asks)[i].who == Granted(asks)[j].who ==>
              Granted(asks)[j].now - Granted(asks)[i].now >= RATE_LIMIT_MS
  {
    RunIsSound(asks, if asks == [] then 0 else asks[|asks| - 1].now);
  }

  /** `last` holds the times of grants only. */
  ghost predicate Recorded(c: Claims, grants: seq<Ask>) {
    forall who | who in c.last :: Ask(who, c.last[who]) in grants
  }

  lemma ClaimIsRecorded(c: Claims, grants: seq<Ask>, a: Ask)
    requires Recorded(c, grants)
    ensures var (d, r) := Claim(c, a.who, a.now); Recorded(d, if r.None? then grants + [a] else grants)
  {
  }

  lemma {:induction false} RunIsRecorded(asks: seq<Ask>)
    ensures Recorded(After(asks), Granted(asks))
  {
    if asks != [] {
      var before, a := asks[..|asks| - 1], asks[|asks| - 1];
      assert before + [a] == asks;
      RunIsRecorded(before);
      RunUnfolds(before, a);
      ClaimIsRecorded(After(before), Granted(before), a);
    }
  }

  /** No drip went to the address within the last ten minutes. */
  predicate Rested(grants: seq<Ask>, a: Ask) {
    forall i | 0 <= i < |grants| && grants[i].who == a.who :: a.now - grants[i].now >= 600_000
  }

  lemma RefusedExactly(c: Claims, grants: seq<Ask>, a: Ask)
    requires Sound(c, grants, a.now) && Recorded(c, grants)
    ensures Claim(c, a.who, a.now).1 ==
            if !Rested(grants, a) then Some(RateLimited)
            else if GrantedOn(grants, DayOf(a.now)) >= 20 then Some(BudgetExhausted) else None
  {
    if a.who in c.last && a.now - c.last[a.who] < 600_000 {
      var i :| 0 <= i < |grants| && grants[i] == Ask(a.who, c.last[a.who]);
    }
  }

  /**
   After every run a claim is granted exactly when its address has rested ten minutes and its UTC day
   has seen fewer than 20 drips, and the refusal names which of the two it was.
   */
  lemma ClaimIsGrantedExactly(asks: seq<Ask>, a: Ask, day: int)
    requires ClockRuns(asks + [a]) && IsOn(a.now, day)
    ensures Claim(After(asks), a.who, a.now).1 ==
            if !Rested(Granted(asks), a) then Some(RateLimited)
            else if GrantedOn(Granted(asks), day) >= 20 then Some(BudgetExhausted) else None
  {
    ClockBefore(asks, a);
    RunIsSound(asks, a.now);
    RunIsRecorded(asks);
    RefusedExactly(After(asks), Granted(asks), a);
    DayIsOn(a.now, day);
  }

  // ---- the route, interleaved ----

  /** A request by its last step: it saw the owner's balance, holds a claim, or is over. */
  datatype Call = Saw(who: Address, seen: nat) | Holds(who: Address) | Over

  datatype Desk = Desk(balance: nat, claims: Claims, calls: map<nat, Call>)

  datatype Step =
    | ReadOwner(call: nat, who: Address)
    | DecideAndClaim(call: nat, now: int)
    | Send(call: nat, fee: nat)
    | SendFails(call: nat)
    | TopUp(amount: nat)

  /**
   Between an await and the next nothing interleaves: the comparison and the claim are one step. A
   send needs the drip and its fee in the owner's balance.
   */
  function Next(d: Desk, step: Step): Desk {
    match step
    case ReadOwner(call, who) =>
      if call in d.calls then d else d.(calls := d.calls[call := Saw(who, d.balance)])
    case DecideAndClaim(call, now) =>
      if call !in d.calls || !d.calls[call].Saw? then d
      else
        var c := d.calls[call];
        if c.seen - DRIP < RESERVE then d.(calls := d.calls[call := Over])
        else
          var (claims, refusal) := Claim(d.claims, c.who, now);
          d.(claims := claims, calls := d.calls[call := if refusal.None? then Holds(c.who) else Over])
    case Send(call, fee) =>
      if call !in d.calls || !d.calls[call].Holds? || d.balance < DRIP + fee then d
      else d.(balance := d.balance - DRIP - fee, calls := d.calls[call := Over])
    case SendFails(call) =>
      if call !in d.calls || !d.calls[call].Holds? then d else d.(calls := d.calls[call := Over])
    case TopUp(amount) => d.(balance := d.balance + amount)
  }

  function Exec(start: nat, steps: seq<Step>): Desk {
    if steps == [] then Desk(start, NO_CLAIMS, map[])
    else Next(Exec(start, steps[..|steps| - 1]), steps[|steps| - 1])
  }

  predicate Risky(c: Call) {
    c.Holds? || (c.Saw? && c.seen - DRIP >= RESERVE)
  }

  /** The requests past the reserve check: their drip may still go out. */
  function Exposed(d: Desk): set<nat> {
    set k | k in d.calls && Risky(d.calls[k])
  }

  /** All along the run, at most most requests are exposed and no send pays a fee above fee. */
  ghost predicate Contained(start: nat, steps: seq<Step>, most: nat, fee: nat) {
    |Exposed(Exec(start, steps))| <= most &&
    (steps != [] ==>
       (steps[|steps| - 1].Send? ==> steps[|steps| - 1].fee <= fee) &&
       Contained(start, steps[..|steps| - 1], most, fee))
  }

  /** The least the owner can be left with: the reserve, less the drips of the other requests in flight. */
  function Floor(most: nat, fee: nat): int {
    RESERVE + DRIP - most * (DRIP + fee)
  }

  lemma ExposureStep(d: Desk, step: Step)
    ensures var e := Next(d, step);
            (step.ReadOwner? && |Exposed(e)| == |Exposed(d)| + 1 && e.balance == d.balance >= RESERVE + DRIP) ||
            (step.Send? && |Exposed(e)| == |Exposed(d)| - 1 && e.balance == d.balance - DRIP - step.fee) ||
            (|Exposed(e)| <= |Exposed(d)| && e.balance >= d.balance)
  {
    var e := Next(d, step);
    if e.calls != d.calls {
      CallExposure(d, e, step.call);
    }
  }

  /** How the exposure moves when one call does. */
  lemma CallExposure(d: Desk, e: Desk, call: nat)
    requires call in e.calls && e.calls == d.calls[call := e.calls[call]]
    ensures var before, after := call in d.calls && Risky(d.calls[call]), Risky(e.calls[call]);
            |Exposed(e)| == |Exposed(d)| + (if after then 1 else 0) - (if before then 1 else 0)
  {
    if Risky(e.calls[call]) {
      assert Exposed(e) == Exposed(d) + {call};
    } else {
      assert Exposed(e) == Exposed(d) - {call};
    }
  }

  lemma {:induction false} BalanceCoversExposure(start: nat, steps: seq<Step>, most: nat, fee: nat)
    requires Contained(start, steps, most, fee)
    ensures var d := Exec(start, steps);
            d.balance - |Exposed(d)| * (DRIP + fee) >= if start < Floor(most, fee) then start else Floor(most, fee)
  {
    if steps == [] {
      assert Exposed(Exec(start, steps)) == {};
    } else {
      var before, step := steps[..|steps| - 1], steps[|steps| - 1];
      BalanceCoversExposure(start, before, most, fee);
      var d, e := Exec(start, before), Exec(start, steps);
      ExposureStep(d, step);
      Spread(|Exposed(d)|, |Exposed(e)|, most, DRIP + fee);
    }
  }

  lemma Spread(x: nat, y: nat, most: nat, unit: nat)
    requires y <= most
    ensures y * unit <= most * unit
    ensures y <= x ==> y * unit <= x * unit
    ensures y == x - 1 ==> y * unit == x * unit - unit
  {
    assert (most - y) * unit >= 0 && most * unit == y * unit + (most - y) * unit;
    if y <= x {
      assert (x - y) * unit >= 0 && x * unit == y * unit + (x - y) * unit;
    }
  }

  /**
   With at most `most` requests past the reserve check at once, the owner never falls below the
   reserve less most - 1 drips and most fees, whatever the interleaving.
   */
  lemma ReserveErodesAtMost(start: nat, steps: seq<Step>, most: nat, fee: nat)
    requires Contained(start, steps, most, fee) && start >= RESERVE && most > 0
    ensures Exec(start, steps).balance >= RESERVE - (most - 1) * DRIP - most * fee
  {
    BalanceCoversExposure(start, steps, most, fee);
    var n := |Exposed(Exec(start, steps))|;
    assert n * (DRIP + fee) >= 0;
    assert most * (DRIP + fee) == (most - 1) * DRIP + DRIP + most * fee;
  }

  /** A contained run from start leads to d. */
  ghost predicate Reaches(start: nat, most: nat, fee: nat, d: Desk) {
    exists steps :: Contained(start, steps, most, fee) && Exec(start, steps) == d
  }

  lemma StepReaches(start: nat, most: nat, fee: nat, d: Desk, step: Step)
    requires Reaches(start, most, fee, d) && |Exposed(Next(d, step))| <= most && (step.Send? ==> step.fee <= fee)
    ensures Reaches(start, most, fee, Next(d, step))
  {
    var steps :| Contained(start, steps, most, fee) && Exec(start, steps) == d;
    var longer := steps + [step];
    assert longer[..|steps|] == steps;
    assert Exec(start, longer) == Next(d, step);
    assert Contained(start, longer, most, fee);
  }

  // ---- the bound is reached, for any number of requests the daily budget lets in at once ----

  const BRINK: nat := RESERVE + DRIP

  /** Requests 0..n that all read BRINK: the first over are over, the next up to held hold a claim. */
  function Crowd(who: seq<Address>, n: nat, held: nat, over: nat): map<nat, Call>
    requires n <= |who|
  {
    map k: nat | 0 <= k < n :: if k < over then Over else if k < held then Holds(who[k]) else Saw(who[k], BRINK)
  }

  ghost function Range(low: nat, high: nat): (r: set<nat>)
    requires low <= high
    ensures |r| == high - low && forall k :: k in r <==> low <= k < high
    decreases high
  {
    if low == high then {} else Range(low, high - 1) + {high - 1}
  }

  lemma CrowdExposed(who: seq<Address>, n: nat, held: nat, over: nat, balance: nat, c: Claims)
    requires n <= |who| && over <= n && over <= held
    ensures |Exposed(Desk(balance, c, Crowd(who, n, held, over)))| == n - over
  {
    assert Exposed(Desk(balance, c, Crowd(who, n, held, over))) == Range(over, n);
  }

  predicate Distinct(who: seq<Address>) {
    forall i, j | 0 <= i < j < |who| :: who[i] != who[j]
  }

  lemma {:induction false} AllRead(who: seq<Address>, n: nat, fee: nat)
    requires n <= |who|
    ensures Reaches(BRINK, |who|, fee, Desk(BRINK, NO_CLAIMS, Crowd(who, n, 0, 0)))
  {
    if n == 0 {
      assert Crowd(who, 0, 0, 0) == map[];
      assert Exec(BRINK, []) == Desk(BRINK, NO_CLAIMS, map[]) && Exposed(Exec(BRINK, [])) == {};
      assert Contained(BRINK, [], |who|, fee);
    } else {
      AllRead(who, n - 1, fee);
      var d := Desk(BRINK, NO_CLAIMS, Crowd(who, n - 1, 0, 0));
      assert Next(d, ReadOwner(n - 1, who[n - 1])).calls == Crowd(who, n, 0, 0);
      CrowdExposed(who, n, 0, 0, BRINK, NO_CLAIMS);
      StepReaches(BRINK, |who|, fee, d, ReadOwner(n - 1, who[n - 1]));
    }
  }

  /** The book in which the first n addresses claimed at one moment, and the others still can. */
  predicate RoomFor(c: Claims, who: seq<Address>, n: nat) {
    n <= |who| && c.spentToday == n * DRIP && (n > 0 ==> c.day == Some(0)) &&
    forall i | n <= i < |who| :: who[i] !in c.last
  }

  lemma ClaimGranted(c: Claims, who: seq<Address>, n: nat)
    requires n < |who| <= 20 && Distinct(who) && RoomFor(c, who, n)
    ensures Claim(c, who[n], 0).1.None? && RoomFor(Claim(c, who[n], 0).0, who, n + 1)
  {
  }

  lemma ClaimMoves(c: Claims, who: seq<Address>, n: nat) returns (after: Claims)
    requires n < |who| <= 20 && Distinct(who) && RoomFor(c, who, n)
    ensures RoomFor(after, who, n + 1)
    ensures Next(Desk(BRINK, c, Crowd(who, |who|, n, 0)), DecideAndClaim(n, 0)) ==
            Desk(BRINK, after, Crowd(who, |who|, n + 1, 0))
  {
    ClaimGranted(c, who, n);
    after := Claim(c, who[n], 0).0;
    assert Crowd(who, |who|, n + 1, 0) == Crowd(who, |who|, n, 0)[n := Holds(who[n])];
  }

  lemma {:induction false} AllClaim(who: seq<Address>, n: nat, fee: nat) returns (c: Claims)
    requires n <= |who| <= 20 && Distinct(who)
    ensures RoomFor(c, who, n) && Reaches(BRINK, |who|, fee, Desk(BRINK, c, Crowd(who, |who|, n, 0)))
  {
    if n == 0 {
      AllRead(who, |who|, fee);
      c := NO_CLAIMS;
    } else {
      var before := AllClaim(who, n - 1, fee);
      c := ClaimMoves(before, who, n - 1);
      CrowdExposed(who, |who|, n, 0, BRINK, c);
      StepReaches(BRINK, |who|, fee, Desk(BRINK, before, Crowd(who, |who|, n - 1, 0)), DecideAndClaim(n - 1, 0));
    }
  }

  lemma {:induction false} AllSent(who: seq<Address>, n: nat, fee: nat) returns (c: Claims)
    requires n <= |who| <= 20 && Distinct(who) && n * (DRIP + fee) <= BRINK
    ensures Reaches(BRINK, |who|, fee, Desk(BRINK - n * (DRIP + fee), c, Crowd(who, |who|, |who|, n)))
  {
    if n == 0 {
      c := AllClaim(who, |who|, fee);
    } else {
      Spread(n - 1, n, n, DRIP + fee);
      c := AllSent(who, n - 1, fee);
      SendReaches(who, n - 1, fee, c);
    }
  }

  lemma SendReaches(who: seq<Address>, n: nat, fee: nat, c: Claims)
    requires n < |who| && (n + 1) * (DRIP + fee) <= BRINK && n * (DRIP + fee) <= BRINK
    requires Reaches(BRINK, |who|, fee, Desk(BRINK - n * (DRIP + fee), c, Crowd(who, |who|, |who|, n)))
    ensures Reaches(BRINK, |who|, fee, Desk(BRINK - (n + 1) * (DRIP + fee), c, Crowd(who, |who|, |who|, n + 1)))
  {
    var d := Desk(BRINK - n * (DRIP + fee), c, Crowd(who, |who|, |who|, n));
    assert (n + 1) * (DRIP + fee) == n * (DRIP + fee) + (DRIP + fee);
    assert Crowd(who, |who|, |who|, n + 1) == Crowd(who, |who|, |who|, n)[n := Over];
    CrowdExposed(who, |who|, |who|, n + 1, d.balance - DRIP - fee, c);
    StepReaches(BRINK, |who|, fee, d, Send(n, fee));
  }

  /** K distinct addresses asking at once take the owner exactly to the bound, as long as he can pay them all. */
  lemma FloorIsReached(who: seq<Address>, fee: nat)
    requires 0 < |who| <= 20 && Distinct(who) && |who| * (DRIP + fee) <= BRINK
    ensures exists d :: Reaches(BRINK, |who|, fee, d) && d.balance == RESERVE - (|who| - 1) * DRIP - |who| * fee
  {
    var c := AllSent(who, |who|, fee);
    assert |who| * (DRIP + fee) == (|who| - 1) * DRIP + DRIP + |who| * fee;
  }

  /** Two requests pass the check on one balance, and the reserve is broken. */
  lemma TwoRequestsBreakTheReserve(a: Address, b: Address)
    requires a != b
    ensures exists d :: Reaches(BRINK, 2, 0, d) && d.balance == RESERVE - DRIP
  {
    FloorIsReached([a, b], 0);
  }

  /** One request alone breaks it by its fee, which the check does not count. */
  lemma OneFeeBreaksTheReserve(a: Address)
    ensures exists d :: Reaches(BRINK, 1, 1, d) && d.balance == RESERVE - 1
  {
    FloorIsReached([a], 1);
  }

  lemma {:induction false} ContainedMore(start: nat, steps: seq<Step>, most: nat, fee: nat, more: nat, dearer: nat)
    requires Contained(start, steps, most, fee) && most <= more && fee <= dearer
    ensures Contained(start, steps, more, dearer)
  {
    if steps != [] {
      ContainedMore(start, steps[..|steps| - 1], most, fee, more, dearer);
    }
  }

  ghost predicate ReserveHolds(most: nat, fee: nat) {
    forall start: nat, steps | start >= RESERVE && Contained(start, steps, most, fee) :: Exec(start, steps).balance >= RESERVE
  }

  lemma BrokenWhenMore(most: nat, fee: nat, more: nat, dearer: nat, d: Desk)
    requires Reaches(BRINK, most, fee, d) && d.balance < RESERVE && most <= more && fee <= dearer
    ensures !ReserveHolds(more, dearer)
  {
    var steps :| Contained(BRINK, steps, most, fee) && Exec(BRINK, steps) == d;
    ContainedMore(BRINK, steps, most, fee, more, dearer);
  }

  /** The reserve is safe exactly when no request, or only one and that free of charge, is past the check at a time. */
  lemma ReserveHoldsExactly(most: nat, fee: nat)
    ensures ReserveHolds(most, fee) <==> most == 0 || (most == 1 && fee == 0)
  {
    if most == 0 || (most == 1 && fee == 0) {
      forall start: nat, steps | start >= RESERVE && Contained(start, steps, most, fee)
        ensures Exec(start, steps).balance >= RESERVE
      {
        BalanceCoversExposure(start, steps, most, fee);
        var n := |Exposed(Exec(start, steps))|;
        assert n * (DRIP + fee) >= 0;
      }
    } else if most == 1 {
      OneFeeBreaksTheReserve(Zeros(20));
      var d :| Reaches(BRINK, 1, 1, d) && d.balance == RESERVE - 1;
      BrokenWhenMore(1, 1, most, fee, d);
    } else {
      var a, b: Address := Zeros(20), seq(20, _ => 1);
      assert a[0] != b[0];
      TwoRequestsBreakTheReserve(a, b);
      var d :| Reaches(BRINK, 2, 0, d) && d.balance == RESERVE - DRIP;
      BrokenWhenMore(2, 0, most, fee, d);
    }
  }
}
