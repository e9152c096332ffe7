/**
 The steps of a run behind each match: where the call began, where it read the chain cache and where
 it took its snapshot, and what the book held at each of these points.
 */
module History {
  import opened Bytes
  import opened Results
  import opened Matching
  import opened Book
  import opened MatchEngine
  import opened Protocol
  import Chain = ChainCache

  /** The state before step i, and its book. */
  ghost function StateAt(env: Env, steps: seq<Step>, i: nat): State
    requires i <= |steps|
  {
    Exec(env, steps[..i])
  }

  ghost function BookAt(env: Env, steps: seq<Step>, i: nat): BookState
    requires i <= |steps|
  {
    StateAt(env, steps, i).book
  }

  // ---- the book of a run is the book of a run of commands ----

  /** What a step does to the book, as a command; nothing for most steps. */
  ghost function CommandOf(s: State, step: Step): seq<Command> {
    if step.Intake? && !step.command.Cache? then [step.command]
    else if step.Commit? && step.call in s.calls && s.calls[step.call].Ready? then
      [Cache(s.calls[step.call].ev.setting.terms.id, s.calls[step.call].outcome)]
    else []
  }

  ghost function Commands(env: Env, steps: seq<Step>): seq<Command> {
    if steps == [] then []
    else Commands(env, steps[..|steps| - 1]) + CommandOf(Exec(env, steps[..|steps| - 1]), steps[|steps| - 1])
  }

  lemma StepIsItsCommand(env: Env, s: State, step: Step)
    ensures |CommandOf(s, step)| <= 1
    ensures Next(env, s, step).book ==
            if CommandOf(s, step) == [] then s.book else Apply(env.cfg, s.book, CommandOf(s, step)[0])
  {
    if !step.Intake? {
      OnlyCommitWrites(env, s, step);
    }
  }

  /** Whatever is proved of runs of commands holds of the book under any interleaving of calls. */
  lemma {:induction false} BookIsARun(env: Env, steps: seq<Step>)
    ensures |Commands(env, steps)| <= |steps|
    ensures Exec(env, steps).book == Run(env.cfg, Commands(env, steps))
  {
    if steps != [] {
      var before, step := steps[..|steps| - 1], steps[|steps| - 1];
      BookIsARun(env, before);
      var s := Exec(env, before);
      StepIsItsCommand(env, s, step);
      var done, last := Commands(env, before), CommandOf(s, step);
      if last == [] {
        assert done + last == done;
      } else {
        assert last == [last[0]] && (done + last)[..|done + last| - 1] == done;
      }
    }
  }

  lemma BookIsOrdered(env: Env, steps: seq<Step>)
    requires |steps| < TWO64
    ensures Ordered(Exec(env, steps).book)
  {
    BookIsARun(env, steps);
    RunIsOrdered(env.cfg, Commands(env, steps));
  }

  // ---- what a call went through ----

  /** The call for id, with the places in the run of its Begin, its ReadChain and its TakeBook. */
  datatype Visit = Visit(call: nat, id: Hash, begin: nat, read: nat, take: nat)

  /** The call really began there: it is the first of its number, and finds its RFQ. */
  ghost predicate Began(env: Env, steps: seq<Step>, v: Visit) {
    v.begin < |steps| && steps[v.begin] == Begin(v.call, v.id) && v.call !in StateAt(env, steps, v.begin).calls &&
    v.id in BookAt(env, steps, v.begin).rfqs
  }

  /** The makers whose quotes rested on the RFQ when the call began. */
  ghost function Listing(env: Env, steps: seq<Step>, v: Visit): set<Address>
    requires Began(env, steps, v)
  {
    QuotesOn(BookAt(env, steps, v.begin), v.id).Keys
  }

  /** It really read the chain there: it had listed its participants and nothing more. */
  ghost predicate WasRead(env: Env, steps: seq<Step>, v: Visit) {
    Began(env, steps, v) && v.begin < v.read < |steps| && steps[v.read].ReadChain? && steps[v.read].call == v.call &&
    v.call in StateAt(env, steps, v.read).calls && StateAt(env, steps, v.read).calls[v.call].Listed?
  }

  /** What the cache showed the call, for the taker and the makers it had listed. */
  ghost function Reading(env: Env, steps: seq<Step>, v: Visit): ChainSnapshot
    requires WasRead(env, steps, v)
  {
    var step := steps[v.read];
    Chain.SnapshotOf(step.cache, step.staleMaxSec, BookAt(env, steps, v.begin).rfqs[v.id].terms.taker,
                     Listing(env, steps, v), step.now)
  }

  /** It really took the book there: it had missed the cache, and got the quotes in an order of theirs. */
  ghost predicate Took(env: Env, steps: seq<Step>, v: Visit) {
    WasRead(env, steps, v) && v.read < v.take < |steps| && steps[v.take].TakeBook? && steps[v.take].call == v.call &&
    v.call in StateAt(env, steps, v.take).calls && StateAt(env, steps, v.take).calls[v.call].Missed? &&
    v.id in BookAt(env, steps, v.take).rfqs &&
    IsOrder(steps[v.take].order, QuotesOn(BookAt(env, steps, v.take), v.id).Keys)
  }

  /** Everything the call decides from but the quotes. */
  ghost function View(env: Env, steps: seq<Step>, v: Visit): Setting
    requires Took(env, steps, v)
  {
    SettingFor(env, BookAt(env, steps, v.take).rfqs[v.id].terms, Reading(env, steps, v), steps[v.read].now)
  }

  /** The quotes in the book when the call took its snapshot. */
  ghost function Seen(env: Env, steps: seq<Step>, v: Visit): map<Address, Quote>
    requires Took(env, steps, v)
  {
    QuotesOn(BookAt(env, steps, v.take), v.id)
  }

  // ---- every call in a state went through what it holds ----

  ghost predicate ListedIn(env: Env, steps: seq<Step>, v: Visit, taker: Address, makers: set<Address>) {
    Began(env, steps, v) && makers == Listing(env, steps, v) &&
    taker == BookAt(env, steps, v.begin).rfqs[v.id].terms.taker
  }

  ghost predicate ReadIn(env: Env, steps: seq<Step>, v: Visit, makers: set<Address>, snap: ChainSnapshot, now: int) {
    WasRead(env, steps, v) && makers == Listing(env, steps, v) && snap == Reading(env, steps, v) &&
    now == steps[v.read].now
  }

  ghost predicate TakenIn(env: Env, steps: seq<Step>, v: Visit, ev: Evidence) {
    Took(env, steps, v) && ev.makers == Listing(env, steps, v) && ev.setting == View(env, steps, v) &&
    ev.byMaker == Seen(env, steps, v) && ev.order == steps[v.take].order
  }

  ghost predicate CallRecorded(env: Env, steps: seq<Step>, k: nat, c: Call) {
    match c
    case Listed(id, taker, makers) => exists v :: ListedIn(env, steps, v, taker, makers) && v.call == k && v.id == id
    case Informed(id, makers, snap, now) =>
      exists v :: ReadIn(env, steps, v, makers, snap, now) && v.call == k && v.id == id
    case Missed(id, makers, snap, now) =>
      exists v :: ReadIn(env, steps, v, makers, snap, now) && v.call == k && v.id == id
    case _ => true
  }

  ghost predicate EvidenceRecorded(env: Env, steps: seq<Step>, ev: Evidence) {
    exists v :: TakenIn(env, steps, v, ev) && v.id == ev.setting.terms.id
  }

  ghost predicate Recorded(env: Env, steps: seq<Step>, s: State) {
    (forall k | k in s.calls :: CallRecorded(env, steps, k, s.calls[k])) &&
    (forall ev | ev in s.taken :: EvidenceRecorded(env, steps, ev))
  }

  /** What was so stays so as the run goes on. */
  lemma BooksStay(env: Env, steps: seq<Step>, step: Step)
    ensures forall i: nat | i <= |steps| :: StateAt(env, steps + [step], i) == StateAt(env, steps, i)
    ensures forall i | 0 <= i < |steps| :: (steps + [step])[i] == steps[i]
  {
    forall i: nat | i <= |steps|
      ensures (steps + [step])[..i] == steps[..i]
    {
    }
  }

  lemma BeganStays(env: Env, steps: seq<Step>, step: Step, v: Visit)
    requires Began(env, steps, v)
    ensures Began(env, steps + [step], v) && Listing(env, steps + [step], v) == Listing(env, steps, v)
    ensures BookAt(env, steps + [step], v.begin) == BookAt(env, steps, v.begin)
  {
    BooksStay(env, steps, step);
  }

  lemma ReadStays(env: Env, steps: seq<Step>, step: Step, v: Visit)
    requires WasRead(env, steps, v)
    ensures WasRead(env, steps + [step], v) && Listing(env, steps + [step], v) == Listing(env, steps, v)
    ensures Reading(env, steps + [step], v) == Reading(env, steps, v) && (steps + [step])[v.read] == steps[v.read]
  {
    BeganStays(env, steps, step, v);
    BooksStay(env, steps, step);
  }

  lemma TookStays(env: Env, steps: seq<Step>, step: Step, v: Visit)
    requires Took(env, steps, v)
    ensures Took(env, steps + [step], v) && Listing(env, steps + [step], v) == Listing(env, steps, v)
    ensures View(env, steps + [step], v) == View(env, steps, v) && Seen(env, steps + [step], v) == Seen(env, steps, v)
  {
    ReadStays(env, steps, step, v);
    BooksStay(env, steps, step);
  }

  lemma CallStaysRecorded(env: Env, steps: seq<Step>, step: Step, k: nat, c: Call)
    requires CallRecorded(env, steps, k, c)
    ensures CallRecorded(env, steps + [step], k, c)
  {
    if c.Listed? {
      var v :| ListedIn(env, steps, v, c.taker, c.makers) && v.call == k && v.id == c.id;
      BeganStays(env, steps, step, v);
      assert ListedIn(env, steps + [step], v, c.taker, c.makers);
    } else if c.Informed? || c.Missed? {
      var v :| ReadIn(env, steps, v, c.makers, c.snap, c.now) && v.call == k && v.id == c.id;
      ReadStays(env, steps, step, v);
      assert ReadIn(env, steps + [step], v, c.makers, c.snap, c.now);
    }
  }

  lemma EvidenceStaysRecorded(env: Env, steps: seq<Step>, step: Step, ev: Evidence)
    requires EvidenceRecorded(env, steps, ev)
    ensures EvidenceRecorded(env, steps + [step], ev)
  {
    var v :| TakenIn(env, steps, v, ev) && v.id == ev.setting.terms.id;
    TookStays(env, steps, step, v);
    assert TakenIn(env, steps + [step], v, ev);
  }

  lemma BeginRecorded(env: Env, steps: seq<Step>, call: nat, id: Hash)
    requires id in Exec(env, steps).book.rfqs && call !in Exec(env, steps).calls
    ensures CallRecorded(env, steps + [Begin(call, id)], call, BeginStep(Exec(env, steps), call, id).calls[call])
  {
    BooksStay(env, steps, Begin(call, id));
    assert steps[..|steps|] == steps;
    var c := BeginStep(Exec(env, steps), call, id).calls[call];
    assert ListedIn(env, steps + [Begin(call, id)], Visit(call, id, |steps|, 0, 0), c.taker, c.makers);
  }

  lemma ReadRecorded(env: Env, steps: seq<Step>, step: Step, c: Call)
    requires step.ReadChain? && c.Listed? && CallRecorded(env, steps, step.call, c)
    requires step.call in Exec(env, steps).calls && Exec(env, steps).calls[step.call] == c
    ensures CallRecorded(env, steps + [step], step.call, Informs(step, c))
  {
    var v :| ListedIn(env, steps, v, c.taker, c.makers) && v.call == step.call && v.id == c.id;
    BeganStays(env, steps, step, v);
    assert (steps + [step])[..|steps|] == steps;
    var told := Informs(step, c);
    assert ReadIn(env, steps + [step], v.(read := |steps|), c.makers, told.snap, step.now);
  }

  function Informs(step: Step, c: Call): Call
    requires step.ReadChain? && c.Listed?
  {
    Informed(c.id, c.makers, Chain.SnapshotOf(step.cache, step.staleMaxSec, c.taker, c.makers, step.now), step.now)
  }

  ghost function Takes(env: Env, s: State, c: Call, order: seq<Address>): Evidence
    requires c.Missed? && c.id in s.book.rfqs
  {
    Evidence(c.makers, SettingFor(env, s.book.rfqs[c.id].terms, c.snap, c.now), QuotesOn(s.book, c.id), order, NumberOf(s, c.id))
  }

  lemma TakeRecorded(env: Env, steps: seq<Step>, step: Step, c: Call)
    requires step.TakeBook? && c.Missed? && CallRecorded(env, steps, step.call, c)
    requires step.call in Exec(env, steps).calls && Exec(env, steps).calls[step.call] == c
    requires WellFiled(Exec(env, steps).book) && c.id in Exec(env, steps).book.rfqs
    requires IsOrder(step.order, QuotesOn(Exec(env, steps).book, c.id).Keys)
    ensures EvidenceRecorded(env, steps + [step], Takes(env, Exec(env, steps), c, step.order))
  {
    var v :| ReadIn(env, steps, v, c.makers, c.snap, c.now) && v.call == step.call && v.id == c.id;
    ReadStays(env, steps, step, v);
    TookNow(env, steps, step, v);
    assert TakenIn(env, steps + [step], v.(take := |steps|), Takes(env, Exec(env, steps), c, step.order));
  }

  lemma TookNow(env: Env, steps: seq<Step>, step: Step, v: Visit)
    requires WasRead(env, steps, v) && WasRead(env, steps + [step], v) && step.TakeBook? && step.call == v.call
    requires v.call in Exec(env, steps).calls && Exec(env, steps).calls[v.call].Missed?
    requires v.id in Exec(env, steps).book.rfqs && IsOrder(step.order, QuotesOn(Exec(env, steps).book, v.id).Keys)
    ensures var all, u := steps + [step], v.(take := |steps|);
            Took(env, all, u) && Seen(env, all, u) == QuotesOn(Exec(env, steps).book, v.id) &&
            View(env, all, u) == SettingFor(env, Exec(env, steps).book.rfqs[v.id].terms, Reading(env, all, v), all[v.read].now)
  {
    assert (steps + [step])[..|steps|] == steps;
    assert WasRead(env, steps + [step], v.(take := |steps|));
  }

  /** How a call comes to hold what it holds. */
  lemma CallsMove(env: Env, s: State, step: Step, k: nat)
    requires k in Next(env, s, step).calls
    ensures var c := Next(env, s, step).calls[k];
            (k in s.calls && c == s.calls[k]) ||
            (c.Listed? && step == Begin(k, c.id) && k !in s.calls && c.id in s.book.rfqs && c == BeginStep(s, k, c.id).calls[k]) ||
            (c.Informed? && step.ReadChain? && step.call == k && k in s.calls && s.calls[k].Listed? &&
             c == Informs(step, s.calls[k])) ||
            (c.Missed? && k in s.calls && s.calls[k] == Informed(c.id, c.makers, c.snap, c.now)) ||
            c.Holding? || c.Decided? || c.Ready? || c.Done?
  {
  }

  lemma NextCallRecorded(env: Env, steps: seq<Step>, step: Step, k: nat)
    requires Recorded(env, steps, Exec(env, steps)) && k in Next(env, Exec(env, steps), step).calls
    ensures CallRecorded(env, steps + [step], k, Next(env, Exec(env, steps), step).calls[k])
  {
    var s := Exec(env, steps);
    var c := Next(env, s, step).calls[k];
    CallsMove(env, s, step, k);
    if k in s.calls {
      assert CallRecorded(env, steps, k, s.calls[k]);
    }
    if k in s.calls && (c == s.calls[k] || c.Missed?) {
      CallStaysRecorded(env, steps, step, k, s.calls[k]);
    } else if c.Listed? {
      BeginRecorded(env, steps, k, c.id);
    } else if c.Informed? {
      ReadRecorded(env, steps, step, s.calls[k]);
    }
  }

  lemma EvidenceIsTaken(env: Env, s: State, step: Step, ev: Evidence)
    requires ev in Next(env, s, step).taken && ev !in s.taken
    ensures step.TakeBook? && step.call in s.calls && s.calls[step.call].Missed?
    ensures s.calls[step.call].id in s.book.rfqs && ev == Takes(env, s, s.calls[step.call], step.order)
    ensures IsOrder(step.order, QuotesOn(s.book, s.calls[step.call].id).Keys)
  {
  }

  lemma NextEvidenceRecorded(env: Env, steps: seq<Step>, step: Step, ev: Evidence)
    requires Recorded(env, steps, Exec(env, steps)) && WellFiled(Exec(env, steps).book)
    requires ev in Next(env, Exec(env, steps), step).taken
    ensures EvidenceRecorded(env, steps + [step], ev)
  {
    var s := Exec(env, steps);
    if ev in s.taken {
      EvidenceStaysRecorded(env, steps, step, ev);
    } else {
      EvidenceIsTaken(env, s, step, ev);
      assert CallRecorded(env, steps, step.call, s.calls[step.call]);
      TakeRecorded(env, steps, step, s.calls[step.call]);
    }
  }

  lemma NextRecorded(env: Env, steps: seq<Step>, step: Step)
    requires Recorded(env, steps, Exec(env, steps)) && WellFiled(Exec(env, steps).book)
    ensures Recorded(env, steps + [step], Next(env, Exec(env, steps), step))
  {
    var t := Next(env, Exec(env, steps), step);
    forall k | k in t.calls
      ensures CallRecorded(env, steps + [step], k, t.calls[k])
    {
      NextCallRecorded(env, steps, step, k);
    }
    forall ev | ev in t.taken
      ensures EvidenceRecorded(env, steps + [step], ev)
    {
      NextEvidenceRecorded(env, steps, step, ev);
    }
  }

  lemma ExecFiled(env: Env, steps: seq<Step>)
    ensures WellFiled(Exec(env, steps).book)
  {
    ExecInv(env, steps);
  }

  lemma {:induction false} ExecRecorded(env: Env, steps: seq<Step>)
    ensures Recorded(env, steps, Exec(env, steps))
  {
    if steps != [] {
      var before, step := steps[..|steps| - 1], steps[|steps| - 1];
      ExecRecorded(env, before);
      ExecFiled(env, before);
      NextRecorded(env, before, step);
      assert steps == before + [step];
    }
  }

  // ---- what a match is earned by ----

  /** w rested where the call looked, met all six conditions there, and is outranked by no quote that did. */
  ghost predicate BestSeen(env: Env, steps: seq<Step>, v: Visit, w: Quote)
    requires Took(env, steps, v)
  {
    var s := View(env, steps, v);
    w in Seen(env, steps, v).Values && s.snap.mid.Some? && Fills(s, w) &&
    forall q | q in Seen(env, steps, v).Values && Fills(s, q) :: !Outranks(q, w)
  }

  /** The call decided after the window, at a price no more than a minute old. */
  predicate Ripe(s: Setting) {
    s.terms.windowEndsAt <= s.now && s.snap.mid.Some? && s.snap.mid.value > 0 && s.snap.midAge <= 60_000_000_000
  }

  /** Each reason is counted as often as a quote the call saw breaks its condition first. */
  ghost predicate Accounted(env: Env, steps: seq<Step>, v: Visit, reasons: multiset<Reason>)
    requires Took(env, steps, v) && View(env, steps, v).snap.mid.Some?
  {
    forall reason | reason != InsufficientTakerFunds ::
      reasons[reason] == Breaking(View(env, steps, v), InOrder(Seen(env, steps, v), steps[v.take].order), reason)
  }

  /**
   The match o was earned by w during the visit v: the signed instruction pays w as it rested in the
   book when the call took its snapshot, of full size, within its lifetime, not the taker's own, in
   band, at the limit or better and bonded by what the cache had shown the call, and outranked by
   none such. The window was closed, the price fresh and the taker funded, and, from 100 raw units
   on, the maker was already quoting when the call began.
   */
  ghost predicate Earned(env: Env, steps: seq<Step>, o: Outcome, v: Visit, w: Quote) {
    Took(env, steps, v) && BestSeen(env, steps, v, w) &&
    var s := View(env, steps, v);
    o.Matched? && o.signed.Some? && o.signed.value.instruction == InstructionFor(s, w) &&
    Pays(o.signed.value.instruction, s, w) && Ripe(s) && s.terms.amount <= s.snap.takerAvailable &&
    Accounted(env, steps, v, o.reasons) && (s.terms.amount >= 100 ==> w.maker in Listing(env, steps, v))
  }

  /**
   The NO_MATCH o was due on the visit v: the window was closed and the price fresh, and either the
   taker lacked the funds, or every quote the call saw breaks a condition and is counted for it.
   */
  ghost predicate Due(env: Env, steps: seq<Step>, o: Outcome, v: Visit) {
    Took(env, steps, v) && o.NoMatch? &&
    var s := View(env, steps, v);
    Ripe(s) &&
    if s.snap.takerAvailable < s.terms.amount then o.reasons == multiset{InsufficientTakerFunds}
    else (forall q | q in Seen(env, steps, v).Values :: !Fills(s, q)) && Accounted(env, steps, v, o.reasons)
  }

  /** o is on the RFQ, or a call on it has returned o. */
  predicate Given(s: State, id: Hash, o: Outcome) {
    CachedFor(s.book, id) == Some(o) ||
    exists k | k in s.calls :: s.calls[k].Done? && s.calls[k].id == id && s.calls[k].result == Ok(o)
  }

  lemma GivenIsProven(env: Env, steps: seq<Step>, id: Hash, o: Outcome)
    requires Given(Exec(env, steps), id, o)
    ensures Proven(env, Exec(env, steps), id, o)
  {
    var s := Exec(env, steps);
    if CachedFor(s.book, id) != Some(o) {
      var k :| k in s.calls && s.calls[k].Done? && s.calls[k].id == id && s.calls[k].result == Ok(o);
      assert s.calls[k] == Done(id, s.calls[k].about, Ok(o));
    }
    EveryOutcomeIsProven(env, steps, id, o);
  }

  /** What proven evidence shows of its own decision. */
  lemma ProvenDecision(env: Env, ev: Evidence, o: Outcome)
    requires Proves(env, ev, o)
    ensures Ripe(ev.setting)
    ensures o.NoMatch? && ev.setting.snap.takerAvailable < ev.setting.terms.amount ==>
              o.reasons == multiset{InsufficientTakerFunds}
    ensures o.NoMatch? && ev.setting.snap.takerAvailable >= ev.setting.terms.amount ==>
              forall q | q in ev.byMaker.Values :: !Fills(ev.setting, q)
    ensures o.Matched? ==> ev.setting.snap.takerAvailable >= ev.setting.terms.amount
    ensures ev.setting.snap.takerAvailable >= ev.setting.terms.amount ==>
              forall reason | reason != InsufficientTakerFunds ::
                o.reasons[reason] == Breaking(ev.setting, InOrder(ev.byMaker, ev.order), reason)
  {
    OrderHoldsAll(ev.byMaker, ev.order);
    DecisionMeans(ev.setting, InOrder(ev.byMaker, ev.order));
  }

  lemma ProvenIsEarned(env: Env, steps: seq<Step>, ev: Evidence, o: Outcome, v: Visit)
    requires Proves(env, ev, o) && o.Matched? && TakenIn(env, steps, v, ev)
    ensures exists w :: Earned(env, steps, o, v, w)
  {
    MatchPaysAWinner(env, ev, o);
    ProvenDecision(env, ev, o);
    var w: Quote :| WinsIn(ev, w) && o.signed.value.instruction == InstructionFor(ev.setting, w) &&
      Pays(o.signed.value.instruction, ev.setting, w) && (ev.setting.terms.amount >= 100 ==> w.maker in ev.makers);
    assert Earned(env, steps, o, v, w);
  }

  lemma GivenHasVisit(env: Env, steps: seq<Step>, id: Hash, o: Outcome) returns (ev: Evidence, v: Visit)
    requires Given(Exec(env, steps), id, o)
    ensures Proves(env, ev, o) && TakenIn(env, steps, v, ev) && v.id == id
  {
    GivenIsProven(env, steps, id, o);
    ExecRecorded(env, steps);
    ev :| ev in Exec(env, steps).taken && ev.setting.terms.id == id && Proves(env, ev, o);
    assert EvidenceRecorded(env, steps, ev);
    v :| TakenIn(env, steps, v, ev) && v.id == id;
  }

  /** Over every interleaving, every match an RFQ holds or a call has returned was earned in that very run. */
  lemma EveryMatchWasEarned(env: Env, steps: seq<Step>, id: Hash, o: Outcome)
    requires o.Matched? && Given(Exec(env, steps), id, o)
    ensures exists v, w :: Earned(env, steps, o, v, w) && v.id == id
  {
    var ev, v := GivenHasVisit(env, steps, id, o);
    ProvenIsEarned(env, steps, ev, o, v);
  }

  /** And every NO_MATCH was due: no quote that met the conditions was passed over. */
  lemma EveryRefusalWasDue(env: Env, steps: seq<Step>, id: Hash, o: Outcome)
    requires o.NoMatch? && Given(Exec(env, steps), id, o)
    ensures exists v :: Due(env, steps, o, v) && v.id == id
  {
    var ev, v := GivenHasVisit(env, steps, id, o);
    ProvenDecision(env, ev, o);
    assert Due(env, steps, o, v);
  }

  /** Short of 2^64 steps the best is strictly the best: no other quote could have earned the match. */
  lemma BestIsUnique(env: Env, steps: seq<Step>, v: Visit, w: Quote, q: Quote)
    requires |steps| < TWO64 && Took(env, steps, v) && BestSeen(env, steps, v, w)
    requires q in Seen(env, steps, v).Values && View(env, steps, v).snap.mid.Some? && Fills(View(env, steps, v), q) && q != w
    ensures Outranks(w, q) && !BestSeen(env, steps, v, q)
  {
    BookIsOrdered(env, steps[..v.take]);
    var b := BookAt(env, steps, v.take);
    var j, k :| j in QuotesOn(b, v.id) && k in QuotesOn(b, v.id) && QuotesOn(b, v.id)[j] == q && QuotesOn(b, v.id)[k] == w;
    assert Rests(b, v.id, j) && Rests(b, v.id, k);
    assert SeqOf(b, v.id, j) != SeqOf(b, v.id, k);
  }
}
