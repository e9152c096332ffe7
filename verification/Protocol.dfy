/**
 handleMatch as its steps: list the participants, read the chain cache, look for a cached outcome,
 snapshot the book, decide, sign, cache. Any number of calls interleave with each other and with
 submissions and sweeps, in any order; times, cache contents and sign-port answers are arbitrary.
 */
module Protocol {
  import opened Bytes
  import opened Results
  import opened Matching
  import opened Book
  import opened MatchEngine
  import Chain = ChainCache

  /** An RFQ as it was added: its terms, and how many times its id had been added by then. */
  datatype Life = Life(number: nat, terms: Terms)

  /** What one call saw when it took its book snapshot, and in which life of the RFQ. */
  datatype Evidence = Evidence(
    makers: set<Address>, setting: Setting, byMaker: map<Address, Quote>, order: seq<Address>, number: nat)

  function LifeOf(ev: Evidence): Life {
    Life(ev.number, ev.setting.terms)
  }

  /** A call, by the last step it has taken. */
  datatype Call =
    | Listed(id: Hash, taker: Address, makers: set<Address>)
    | Informed(id: Hash, makers: set<Address>, snap: ChainSnapshot, now: int)
    | Missed(id: Hash, makers: set<Address>, snap: ChainSnapshot, now: int)
    | Holding(ev: Evidence)
    | Decided(ev: Evidence, outcome: Outcome)
    | Ready(ev: Evidence, outcome: Outcome)
    | Done(id: Hash, about: Option<Life>, result: Result<Outcome, MatchError>)

  /** lives: how many times each id has been added. */
  datatype State = State(
    book: BookState, calls: map<nat, Call>, taken: seq<Evidence>, lives: map<Hash, nat>)

  const START := State(EMPTY_BOOK, map[], [], map[])

  datatype Step =
    | Intake(command: Command)
    | Begin(call: nat, id: Hash)
    | ReadChain(call: nat, cache: Chain.CacheState, staleMaxSec: int, now: int)
    | CheckCache(call: nat)
    | TakeBook(call: nat, order: seq<Address>)
    | Compute(call: nat)
    | Sign(call: nat, reply: Option<seq<Byte>>)
    | Commit(call: nat)

  function NumberOf(s: State, id: Hash): nat {
    if id in s.lives then s.lives[id] else 0
  }

  /** The life that id is in. */
  function Living(s: State, id: Hash): Life
    requires id in s.book.rfqs
  {
    Life(NumberOf(s, id), s.book.rfqs[id].terms)
  }

  predicate Accepts(env: Env, b: BookState, c: Command) {
    c.Add? && AddRfq(b, env.cfg, c.id, c.taker, c.amount, c.limit, c.xrpl, c.now, c.windowSec, c.ttlSec).1.Ok?
  }

  /** Submissions and sweeps; an accepted RFQ starts a new life of its id. */
  function IntakeStep(env: Env, s: State, c: Command): State {
    if c.Cache? then s
    else s.(book := Apply(env.cfg, s.book, c), lives := if Accepts(env, s.book, c) then s.lives[c.id := NumberOf(s, c.id) + 1] else s.lives)
  }

  function Move(s: State, call: nat, c: Call): State {
    s.(calls := s.calls[call := c])
  }

  function BeginStep(s: State, call: nat, id: Hash): State {
    if id !in s.book.rfqs then Move(s, call, Done(id, None, Err(RfqUnknown)))
    else Move(s, call, Listed(id, s.book.rfqs[id].terms.taker, QuotesOn(s.book, id).Keys))
  }

  function CheckStep(s: State, call: nat, c: Call): State
    requires c.Informed?
  {
    match CachedFor(s.book, c.id)
    case None => Move(s, call, Missed(c.id, c.makers, c.snap, c.now))
    case Some(o) => Move(s, call, Done(c.id, Some(Living(s, c.id)), Ok(o)))
  }

  ghost function TakeStep(env: Env, s: State, call: nat, c: Call, order: seq<Address>): State
    requires c.Missed?
  {
    if c.id !in s.book.rfqs then Move(s, call, Done(c.id, None, Err(RfqUnknown)))
    else if !IsOrder(order, QuotesOn(s.book, c.id).Keys) then s
    else
      var ev := Evidence(c.makers, SettingFor(env, s.book.rfqs[c.id].terms, c.snap, c.now), QuotesOn(s.book, c.id), order,
                         NumberOf(s, c.id));
      Move(s, call, Holding(ev)).(taken := s.taken + [ev])
  }

  function Fail(s: State, call: nat, ev: Evidence, e: MatchError): State {
    Move(s, call, Done(ev.setting.terms.id, Some(LifeOf(ev)), Err(e)))
  }

  ghost predicate Orderly(ev: Evidence) {
    IsOrder(ev.order, ev.byMaker.Keys)
  }

  ghost function Verdict(ev: Evidence): Result<Decision, MatchError>
    requires Orderly(ev)
  {
    Decide(ev.setting, InOrder(ev.byMaker, ev.order))
  }

  ghost function ComputeStep(env: Env, s: State, call: nat, ev: Evidence): State
    requires Orderly(ev)
  {
    if ev.setting.now < ev.setting.terms.windowEndsAt then Fail(s, call, ev, WindowOpen)
    else
      match Verdict(ev)
      case Err(e) => Fail(s, call, ev, e)
      case Ok(d) => Move(s, call, Decided(ev, OutcomeOf(env.keccak, ev.setting, d)))
  }

  function SignStep(env: Env, s: State, call: nat, c: Call, reply: Option<seq<Byte>>): State
    requires c.Decided?
  {
    match Finish(env, c.outcome, reply)
    case Err(e) => Fail(s, call, c.ev, e)
    case Ok(o) => Move(s, call, Ready(c.ev, o))
  }

  function CommitStep(s: State, call: nat, c: Call): State
    requires c.Ready?
  {
    var id := c.ev.setting.terms.id;
    Move(s, call, Done(id, Some(LifeOf(c.ev)), Ok(c.outcome))).(book := CacheOutcome(s.book, id, c.outcome))
  }

  /** One step; a step that is not the call's next one changes nothing. */
  ghost function Next(env: Env, s: State, step: Step): State {
    match step
    case Intake(c) => IntakeStep(env, s, c)
    case Begin(call, id) => if call in s.calls then s else BeginStep(s, call, id)
    case ReadChain(call, cache, staleMaxSec, now) =>
      if call in s.calls && s.calls[call].Listed? then
        var c := s.calls[call];
        Move(s, call, Informed(c.id, c.makers, Chain.SnapshotOf(cache, staleMaxSec, c.taker, c.makers, now), now))
      else s
    case CheckCache(call) =>
      if call in s.calls && s.calls[call].Informed? then CheckStep(s, call, s.calls[call]) else s
    case TakeBook(call, order) =>
      if call in s.calls && s.calls[call].Missed? then TakeStep(env, s, call, s.calls[call], order) else s
    case Compute(call) =>
      if call in s.calls && s.calls[call].Holding? && Orderly(s.calls[call].ev)
      then ComputeStep(env, s, call, s.calls[call].ev) else s
    case Sign(call, reply) =>
      if call in s.calls && s.calls[call].Decided? then SignStep(env, s, call, s.calls[call], reply) else s
    case Commit(call) =>
      if call in s.calls && s.calls[call].Ready? then CommitStep(s, call, s.calls[call]) else s
  }

  ghost function Exec(env: Env, steps: seq<Step>): State {
    if steps == [] then START else Next(env, Exec(env, steps[..|steps| - 1]), steps[|steps| - 1])
  }

  // ---- every outcome has its evidence ----

  ghost predicate Sound(env: Env, ev: Evidence) {
    Orderly(ev) && ev.setting.cfg == env.cfg && ev.setting.escrow == env.escrow &&
    ev.setting.snap.freeBond.Keys == ev.makers &&
    (forall m | m in ev.byMaker :: ev.byMaker[m].maker == m && ev.byMaker[m].rfqId == ev.setting.terms.id)
  }

  /** o is what ev leads to, signed. */
  ghost predicate Proves(env: Env, ev: Evidence, o: Outcome) {
    Sound(env, ev) && ev.setting.now >= ev.setting.terms.windowEndsAt &&
    Verdict(ev).Ok? && Carries(env, ev.setting, Verdict(ev).value, o)
  }

  ghost predicate Proven(env: Env, s: State, id: Hash, o: Outcome) {
    exists ev :: ev in s.taken && ev.setting.terms.id == id && Proves(env, ev, o)
  }

  ghost predicate CallSound(env: Env, s: State, c: Call) {
    match c
    case Listed(_, _, _) => true
    case Informed(_, makers, snap, _) => snap.freeBond.Keys == makers
    case Missed(_, makers, snap, _) => snap.freeBond.Keys == makers
    case Holding(ev) => ev in s.taken && Sound(env, ev)
    case Decided(ev, o) =>
      ev in s.taken && Sound(env, ev) && ev.setting.now >= ev.setting.terms.windowEndsAt &&
      Verdict(ev).Ok? && o == OutcomeOf(env.keccak, ev.setting, Verdict(ev).value)
    case Ready(ev, o) => ev in s.taken && Proves(env, ev, o)
    case Done(id, _, result) => result.Ok? ==> Proven(env, s, id, result.value)
  }

  ghost predicate Inv(env: Env, s: State) {
    WellFiled(s.book) &&
    (forall k | k in s.calls :: CallSound(env, s, s.calls[k])) &&
    (forall id | id in s.book.rfqs && s.book.rfqs[id].cached.Some? :: Proven(env, s, id, s.book.rfqs[id].cached.value))
  }

  lemma ProvenLater(env: Env, s: State, t: State, id: Hash, o: Outcome)
    requires s.taken <= t.taken && Proven(env, s, id, o)
    ensures Proven(env, t, id, o)
  {
    var ev :| ev in s.taken && ev.setting.terms.id == id && Proves(env, ev, o);
    assert ev in t.taken;
  }

  lemma CallSoundLater(env: Env, s: State, t: State, c: Call)
    requires s.taken <= t.taken && CallSound(env, s, c)
    ensures CallSound(env, t, c)
  {
    if c.Done? && c.result.Ok? {
      ProvenLater(env, s, t, c.id, c.result.value);
    }
    if c.Holding? || c.Decided? || c.Ready? {
      assert c.ev in t.taken;
    }
  }

  lemma MovedInv(env: Env, s: State, t: State, call: nat, c: Call)
    requires Inv(env, s) && t.book == s.book && t.calls == s.calls[call := c] && s.taken <= t.taken
    requires CallSound(env, t, c)
    ensures Inv(env, t)
  {
    forall k | k in t.calls
      ensures CallSound(env, t, t.calls[k])
    {
      if k != call {
        CallSoundLater(env, s, t, s.calls[k]);
      }
    }
    forall id | id in t.book.rfqs && t.book.rfqs[id].cached.Some?
      ensures Proven(env, t, id, t.book.rfqs[id].cached.value)
    {
      ProvenLater(env, s, t, id, s.book.rfqs[id].cached.value);
    }
  }

  lemma IntakeInv(env: Env, s: State, c: Command)
    requires Inv(env, s)
    ensures Inv(env, IntakeStep(env, s, c))
  {
    var t := IntakeStep(env, s, c);
    if !c.Cache? {
      ApplyKeepsFiling(env.cfg, s.book, c);
      forall k | k in t.calls
        ensures CallSound(env, t, t.calls[k])
      {
        CallSoundLater(env, s, t, s.calls[k]);
      }
      forall id | id in t.book.rfqs && t.book.rfqs[id].cached.Some?
        ensures Proven(env, t, id, t.book.rfqs[id].cached.value)
      {
        assert id in s.book.rfqs && s.book.rfqs[id] == t.book.rfqs[id];
        ProvenLater(env, s, t, id, s.book.rfqs[id].cached.value);
      }
    }
  }

  lemma TakeInv(env: Env, s: State, call: nat, c: Call, order: seq<Address>)
    requires Inv(env, s) && call in s.calls && s.calls[call] == c && c.Missed?
    ensures Inv(env, TakeStep(env, s, call, c, order))
  {
    var t := TakeStep(env, s, call, c, order);
    if c.id !in s.book.rfqs {
      MovedInv(env, s, t, call, t.calls[call]);
    } else if IsOrder(order, QuotesOn(s.book, c.id).Keys) {
      var ev := t.calls[call].ev;
      assert CallSound(env, s, c);
      assert Sound(env, ev);
      assert t.taken == s.taken + [ev];
      assert ev in t.taken;
      MovedInv(env, s, t, call, Holding(ev));
    }
  }

  lemma SignInv(env: Env, s: State, call: nat, c: Call, reply: Option<seq<Byte>>)
    requires Inv(env, s) && call in s.calls && s.calls[call] == c && c.Decided?
    ensures Inv(env, SignStep(env, s, call, c, reply))
  {
    var t := SignStep(env, s, call, c, reply);
    assert CallSound(env, s, c);
    FinishedCarriesDecision(env, c.ev.setting, Verdict(c.ev).value, reply);
    MovedInv(env, s, t, call, t.calls[call]);
  }

  lemma CommitInv(env: Env, s: State, call: nat, c: Call)
    requires Inv(env, s) && call in s.calls && s.calls[call] == c && c.Ready?
    ensures Inv(env, CommitStep(s, call, c))
  {
    var t := CommitStep(s, call, c);
    var id := c.ev.setting.terms.id;
    ApplyKeepsFiling(env.cfg, s.book, Cache(id, c.outcome));
    assert CallSound(env, s, c);
    assert Proven(env, s, id, c.outcome);
    forall k | k in t.calls
      ensures CallSound(env, t, t.calls[k])
    {
      if k != call {
        CallSoundLater(env, s, t, s.calls[k]);
      } else {
        ProvenLater(env, s, t, id, c.outcome);
      }
    }
    forall i | i in t.book.rfqs && t.book.rfqs[i].cached.Some?
      ensures Proven(env, t, i, t.book.rfqs[i].cached.value)
    {
      ProvenLater(env, s, t, i, t.book.rfqs[i].cached.value);
    }
  }

  lemma CheckInv(env: Env, s: State, call: nat)
    requires Inv(env, s) && call in s.calls && s.calls[call].Informed?
    ensures Inv(env, CheckStep(s, call, s.calls[call]))
  {
    var c := s.calls[call];
    var t := CheckStep(s, call, c);
    assert CallSound(env, s, c);
    if CachedFor(s.book, c.id).Some? {
      ProvenLater(env, s, t, c.id, CachedFor(s.book, c.id).value);
    }
    MovedInv(env, s, t, call, t.calls[call]);
  }

  lemma ComputeInv(env: Env, s: State, call: nat)
    requires Inv(env, s) && call in s.calls && s.calls[call].Holding?
    ensures Sound(env, s.calls[call].ev)
    ensures Inv(env, ComputeStep(env, s, call, s.calls[call].ev))
  {
    assert CallSound(env, s, s.calls[call]);
    var t := ComputeStep(env, s, call, s.calls[call].ev);
    MovedInv(env, s, t, call, t.calls[call]);
  }

  lemma BeginInv(env: Env, s: State, call: nat, id: Hash)
    requires Inv(env, s)
    ensures Inv(env, BeginStep(s, call, id))
  {
    var t := BeginStep(s, call, id);
    MovedInv(env, s, t, call, t.calls[call]);
  }

  lemma ReadInv(env: Env, s: State, call: nat, cache: Chain.CacheState, staleMaxSec: int, now: int)
    requires Inv(env, s) && call in s.calls && s.calls[call].Listed?
    ensures Inv(env, Next(env, s, ReadChain(call, cache, staleMaxSec, now)))
  {
    var t := Next(env, s, ReadChain(call, cache, staleMaxSec, now));
    MovedInv(env, s, t, call, t.calls[call]);
  }

  lemma EarlyInv(env: Env, s: State, step: Step)
    requires Inv(env, s) && (step.Begin? || step.ReadChain? || step.CheckCache? || step.TakeBook?)
    ensures Inv(env, Next(env, s, step))
  {
    match step
    case Begin(call, id) => BeginInv(env, s, call, id);
    case ReadChain(call, cache, staleMaxSec, now) =>
      if call in s.calls && s.calls[call].Listed? {
        ReadInv(env, s, call, cache, staleMaxSec, now);
      }
    case CheckCache(call) =>
      if call in s.calls && s.calls[call].Informed? {
        CheckInv(env, s, call);
      }
    case TakeBook(call, order) =>
      if call in s.calls && s.calls[call].Missed? {
        TakeInv(env, s, call, s.calls[call], order);
      }
  }

  lemma LateInv(env: Env, s: State, step: Step)
    requires Inv(env, s) && (step.Compute? || step.Sign? || step.Commit?)
    ensures Inv(env, Next(env, s, step))
  {
    match step
    case Compute(call) =>
      if call in s.calls && s.calls[call].Holding? {
        ComputeInv(env, s, call);
      }
    case Sign(call, reply) =>
      if call in s.calls && s.calls[call].Decided? {
        SignInv(env, s, call, s.calls[call], reply);
      }
    case Commit(call) =>
      if call in s.calls && s.calls[call].Ready? {
        CommitInv(env, s, call, s.calls[call]);
      }
  }

  lemma NextInv(env: Env, s: State, step: Step)
    requires Inv(env, s)
    ensures Inv(env, Next(env, s, step))
  {
    if step.Intake? {
      IntakeInv(env, s, step.command);
    } else if step.Compute? || step.Sign? || step.Commit? {
      LateInv(env, s, step);
    } else {
      EarlyInv(env, s, step);
    }
  }

  lemma {:induction false} ExecInv(env: Env, steps: seq<Step>)
    ensures Inv(env, Exec(env, steps))
  {
    if steps != [] {
      ExecInv(env, steps[..|steps| - 1]);
      NextInv(env, Exec(env, steps[..|steps| - 1]), steps[|steps| - 1]);
    }
  }

  /** w rested in the snapshot ev, met all six conditions, and no quote there that does outranks it. */
  ghost predicate WinsIn(ev: Evidence, w: Quote) {
    w in ev.byMaker.Values && ev.setting.snap.mid.Some? && Fills(ev.setting, w) &&
    forall q | q in ev.byMaker.Values && Fills(ev.setting, q) :: !Outranks(q, w)
  }

  lemma VerdictWins(ev: Evidence)
    requires Orderly(ev) && Verdict(ev).Ok? && Verdict(ev).value.Chosen?
    ensures WinsIn(ev, Verdict(ev).value.winner)
  {
    OrderHoldsAll(ev.byMaker, ev.order);
    DecisionMeans(ev.setting, InOrder(ev.byMaker, ev.order));
  }

  /**
   A MATCHED outcome pays a quote that wins in its call's own snapshot: of full size, within its
   lifetime by the call's clock, in band, at the limit or better and bonded; and when the block is at
   least 100 raw units its maker was already quoting when the call listed the participants.
   */
  lemma MatchPaysAWinner(env: Env, ev: Evidence, o: Outcome)
    requires Proves(env, ev, o) && o.Matched?
    ensures exists w: Quote :: WinsIn(ev, w) && o.signed.value.instruction == InstructionFor(ev.setting, w) &&
              Pays(o.signed.value.instruction, ev.setting, w) && (ev.setting.terms.amount >= 100 ==> w.maker in ev.makers)
  {
    var w := Verdict(ev).value.winner;
    VerdictWins(ev);
    ProvenPays(env, ev, o);
    PaysItsWinner(ev.setting, w);
    FillsBonded(ev.setting, w);
    assert WinsIn(ev, w);
  }

  lemma ProvenPays(env: Env, ev: Evidence, o: Outcome)
    requires Proves(env, ev, o) && o.Matched?
    ensures Verdict(ev).Ok? && Verdict(ev).value.Chosen? && ev.setting.snap.freeBond.Keys == ev.makers
    ensures o.signed.Some? && o.signed.value.instruction == InstructionFor(ev.setting, Verdict(ev).value.winner)
  {
  }

  /** Safety, over every run: whatever is cached or was returned comes from a snapshot some call took. */
  lemma EveryOutcomeIsProven(env: Env, steps: seq<Step>, id: Hash, o: Outcome)
    requires var s := Exec(env, steps);
             (id in s.book.rfqs && s.book.rfqs[id].cached == Some(o)) ||
             exists k, about :: k in s.calls && s.calls[k] == Done(id, about, Ok(o))
    ensures Proven(env, Exec(env, steps), id, o)
  {
    ExecInv(env, steps);
    var s := Exec(env, steps);
    if k, about :| k in s.calls && s.calls[k] == Done(id, about, Ok(o)) {
      assert CallSound(env, s, s.calls[k]);
    }
  }

  // ---- the book, seen from the calls ----

  /** A call changes the book only when it commits, and then only the outcome it goes on to return. */
  lemma OnlyCommitWrites(env: Env, s: State, step: Step)
    requires !step.Intake?
    ensures Next(env, s, step).book != s.book ==>
              step.Commit? && step.call in s.calls && s.calls[step.call].Ready? &&
              var c := s.calls[step.call];
              Next(env, s, step).book == CacheOutcome(s.book, c.ev.setting.terms.id, c.outcome) &&
              Next(env, s, step).calls[step.call].result == Ok(c.outcome)
  {
  }
}
