/** When a cached or returned outcome belongs to the RFQ it sits on or was asked about. */
module Lifetimes {
  import opened Bytes
  import opened Matching
  import opened Book
  import opened MatchEngine
  import opened Protocol

  // ---- ownership: no id is added again while a match on it is in flight ----

  ghost predicate InFlight(c: Call, id: Hash) {
    (c.Holding? || c.Decided? || c.Ready?) && c.ev.setting.terms.id == id
  }

  ghost predicate NoReadd(env: Env, s: State, step: Step) {
    step.Intake? && Accepts(env, s.book, step.command) ==>
      forall k | k in s.calls :: !InFlight(s.calls[k], step.command.id)
  }

  ghost predicate NeverReadds(env: Env, steps: seq<Step>) {
    steps == [] ||
    (NeverReadds(env, steps[..|steps| - 1]) &&
     NoReadd(env, Exec(env, steps[..|steps| - 1]), steps[|steps| - 1]))
  }

  /** o was decided for exactly these terms. */
  ghost predicate Owned(env: Env, s: State, terms: Terms, o: Outcome) {
    exists ev :: ev in s.taken && ev.setting.terms == terms && Proves(env, ev, o)
  }

  ghost predicate CallOwned(env: Env, s: State, c: Call) {
    match c
    case Holding(ev) => Current(s, ev)
    case Decided(ev, _) => Current(s, ev)
    case Ready(ev, _) => Current(s, ev)
    case Done(id, about, result) =>
      result.Ok? ==> about.Some? && about.value.terms.id == id && Owned(env, s, about.value.terms, result.value)
    case _ => true
  }

  ghost predicate Current(s: State, ev: Evidence) {
    ev.setting.terms.id in s.book.rfqs ==> s.book.rfqs[ev.setting.terms.id].terms == ev.setting.terms
  }

  ghost predicate OwnedInv(env: Env, s: State) {
    (forall k | k in s.calls :: CallOwned(env, s, s.calls[k])) &&
    (forall id | id in s.book.rfqs && s.book.rfqs[id].cached.Some? ::
       Owned(env, s, s.book.rfqs[id].terms, s.book.rfqs[id].cached.value))
  }

  lemma OwnedLater(env: Env, s: State, t: State, terms: Terms, o: Outcome)
    requires s.taken <= t.taken && Owned(env, s, terms, o)
    ensures Owned(env, t, terms, o)
  {
    var ev :| ev in s.taken && ev.setting.terms == terms && Proves(env, ev, o);
    assert ev in t.taken;
  }

  lemma MovedOwned(env: Env, s: State, t: State, call: nat, c: Call)
    requires OwnedInv(env, s) && t.book == s.book && t.calls == s.calls[call := c] && s.taken <= t.taken
    requires CallOwned(env, t, c)
    ensures OwnedInv(env, t)
  {
    forall k | k in t.calls && k != call
      ensures CallOwned(env, t, t.calls[k])
    {
      var d := s.calls[k];
      assert CallOwned(env, s, d);
      if d.Done? && d.result.Ok? {
        OwnedLater(env, s, t, d.about.value.terms, d.result.value);
      }
    }
    forall id | id in t.book.rfqs && t.book.rfqs[id].cached.Some?
      ensures Owned(env, t, t.book.rfqs[id].terms, t.book.rfqs[id].cached.value)
    {
      OwnedLater(env, s, t, s.book.rfqs[id].terms, s.book.rfqs[id].cached.value);
    }
  }

  lemma IntakeOwned(env: Env, s: State, c: Command)
    requires Inv(env, s) && OwnedInv(env, s) && NoReadd(env, s, Intake(c))
    ensures OwnedInv(env, IntakeStep(env, s, c))
  {
    var t := IntakeStep(env, s, c);
    if !c.Cache? {
      forall k | k in t.calls
        ensures CallOwned(env, t, t.calls[k])
      {
        var d := s.calls[k];
        assert CallOwned(env, s, d);
        if d.Done? && d.result.Ok? {
          OwnedLater(env, s, t, d.about.value.terms, d.result.value);
        }
      }
      forall id | id in t.book.rfqs && t.book.rfqs[id].cached.Some?
        ensures Owned(env, t, t.book.rfqs[id].terms, t.book.rfqs[id].cached.value)
      {
        assert id in s.book.rfqs && s.book.rfqs[id] == t.book.rfqs[id];
        OwnedLater(env, s, t, s.book.rfqs[id].terms, s.book.rfqs[id].cached.value);
      }
    }
  }

  lemma CommitOwned(env: Env, s: State, call: nat)
    requires Inv(env, s) && OwnedInv(env, s) && call in s.calls && s.calls[call].Ready?
    ensures OwnedInv(env, CommitStep(s, call, s.calls[call]))
  {
    var c := s.calls[call];
    var t := CommitStep(s, call, c);
    assert CallSound(env, s, c) && CallOwned(env, s, c);
    assert Owned(env, s, c.ev.setting.terms, c.outcome);
    OwnedLater(env, s, t, c.ev.setting.terms, c.outcome);
    forall k | k in t.calls && k != call
      ensures CallOwned(env, t, t.calls[k])
    {
      var d := s.calls[k];
      assert CallOwned(env, s, d);
      if d.Done? && d.result.Ok? {
        OwnedLater(env, s, t, d.about.value.terms, d.result.value);
      }
    }
    forall id | id in t.book.rfqs && t.book.rfqs[id].cached.Some?
      ensures Owned(env, t, t.book.rfqs[id].terms, t.book.rfqs[id].cached.value)
    {
      if id != c.ev.setting.terms.id {
        OwnedLater(env, s, t, s.book.rfqs[id].terms, s.book.rfqs[id].cached.value);
      }
    }
  }

  lemma CheckOwned(env: Env, s: State, call: nat)
    requires OwnedInv(env, s) && WellFiled(s.book) && call in s.calls && s.calls[call].Informed?
    ensures OwnedInv(env, CheckStep(s, call, s.calls[call]))
  {
    var id := s.calls[call].id;
    var t := CheckStep(s, call, s.calls[call]);
    if CachedFor(s.book, id).Some? {
      OwnedLater(env, s, t, s.book.rfqs[id].terms, CachedFor(s.book, id).value);
    }
    MovedOwned(env, s, t, call, t.calls[call]);
  }

  lemma TakeOwned(env: Env, s: State, call: nat, order: seq<Address>)
    requires OwnedInv(env, s) && WellFiled(s.book) && call in s.calls && s.calls[call].Missed?
    ensures OwnedInv(env, TakeStep(env, s, call, s.calls[call], order))
  {
    var t := TakeStep(env, s, call, s.calls[call], order);
    if t != s {
      MovedOwned(env, s, t, call, t.calls[call]);
    }
  }

  /** A step of a call that neither looks at the book for an outcome nor writes it. */
  lemma LocalMoves(env: Env, s: State, step: Step)
    requires step.Begin? || step.ReadChain? || step.Compute? || step.Sign?
    requires step.call in s.calls ==> CallOwned(env, s, s.calls[step.call])
    ensures var t := Next(env, s, step);
            t == s || (step.call in t.calls && t == Move(s, step.call, t.calls[step.call]) &&
                       CallOwned(env, s, t.calls[step.call]))
  {
  }

  lemma LocalOwned(env: Env, s: State, step: Step)
    requires OwnedInv(env, s)
    requires step.Begin? || step.ReadChain? || step.Compute? || step.Sign?
    ensures OwnedInv(env, Next(env, s, step))
  {
    var t := Next(env, s, step);
    LocalMoves(env, s, step);
    if t != s {
      CallOwnedAlike(env, s, t, t.calls[step.call]);
      MovedOwned(env, s, t, step.call, t.calls[step.call]);
    }
  }

  lemma CallOwnedAlike(env: Env, s: State, t: State, c: Call)
    requires CallOwned(env, s, c) && t.book == s.book && t.taken == s.taken
    ensures CallOwned(env, t, c)
  {
  }

  lemma NextOwned(env: Env, s: State, step: Step)
    requires Inv(env, s) && OwnedInv(env, s) && NoReadd(env, s, step)
    ensures OwnedInv(env, Next(env, s, step))
  {
    match step
    case Intake(c) => IntakeOwned(env, s, c);
    case CheckCache(call) =>
      if call in s.calls && s.calls[call].Informed? {
        CheckOwned(env, s, call);
      }
    case TakeBook(call, order) =>
      if call in s.calls && s.calls[call].Missed? {
        TakeOwned(env, s, call, order);
      }
    case Commit(call) =>
      if call in s.calls && s.calls[call].Ready? {
        CommitOwned(env, s, call);
      }
    case _ => LocalOwned(env, s, step);
  }

  lemma {:induction false} ExecOwned(env: Env, steps: seq<Step>)
    requires NeverReadds(env, steps)
    ensures OwnedInv(env, Exec(env, steps))
  {
    if steps != [] {
      var before, step := steps[..|steps| - 1], steps[|steps| - 1];
      ExecOwned(env, before);
      ExecInv(env, before);
      NextOwned(env, Exec(env, before), step);
    }
  }

  /** The signed instruction names this RFQ, its taker, its amount and its XRPL address, and meets its limit. */
  ghost predicate Names(o: Outcome, terms: Terms) {
    o.Matched? ==>
      o.signed.Some? && var mi := o.signed.value.instruction;
      mi.matchId == terms.id && mi.taker == terms.taker && mi.amount == terms.amount && mi.xrpl == terms.xrpl &&
      mi.price >= terms.limit
  }

  /** Safety of the cache: every outcome cached on an RFQ, and every one returned, names that RFQ. */
  lemma OutcomesNameTheirRfq(env: Env, steps: seq<Step>)
    requires NeverReadds(env, steps)
    ensures var s := Exec(env, steps);
            (forall id | id in s.book.rfqs && s.book.rfqs[id].cached.Some? ::
               Names(s.book.rfqs[id].cached.value, s.book.rfqs[id].terms)) &&
            (forall k | k in s.calls && s.calls[k].Done? && s.calls[k].result.Ok? ::
               s.calls[k].about.Some? && s.calls[k].about.value.terms.id == s.calls[k].id &&
               Names(s.calls[k].result.value, s.calls[k].about.value.terms))
  {
    ExecOwned(env, steps);
    var s := Exec(env, steps);
    forall k | k in s.calls && s.calls[k].Done? && s.calls[k].result.Ok?
      ensures s.calls[k].about.Some? && s.calls[k].about.value.terms.id == s.calls[k].id &&
              Names(s.calls[k].result.value, s.calls[k].about.value.terms)
    {
      assert CallOwned(env, s, s.calls[k]);
      OwnedNames(env, s, s.calls[k].about.value.terms, s.calls[k].result.value);
    }
    forall id | id in s.book.rfqs && s.book.rfqs[id].cached.Some?
      ensures Names(s.book.rfqs[id].cached.value, s.book.rfqs[id].terms)
    {
      OwnedNames(env, s, s.book.rfqs[id].terms, s.book.rfqs[id].cached.value);
    }
  }

  lemma OwnedNames(env: Env, s: State, terms: Terms, o: Outcome)
    requires Owned(env, s, terms, o)
    ensures Names(o, terms)
  {
    var ev :| ev in s.taken && ev.setting.terms == terms && Proves(env, ev, o);
    NamesItsOwn(env, ev, o);
  }

  /** A MATCHED outcome names the RFQ it was decided for. */
  lemma NamesItsOwn(env: Env, ev: Evidence, o: Outcome)
    requires Proves(env, ev, o)
    ensures Names(o, ev.setting.terms)
  {
    if o.Matched? {
      VerdictWins(ev);
      ProvenPays(env, ev, o);
      FillsBonded(ev.setting, Verdict(ev).value.winner);
    }
  }

  /**
   It names another one exactly when the two agree on id, taker, amount and XRPL address and its
   price meets the other's limit; a commit can check that.
   */
  lemma NamesExactly(env: Env, ev: Evidence, o: Outcome, terms: Terms)
    requires Proves(env, ev, o)
    ensures Names(o, terms) <==>
            o.NoMatch? || (terms.id == ev.setting.terms.id && terms.taker == ev.setting.terms.taker &&
                           terms.amount == ev.setting.terms.amount && terms.xrpl == ev.setting.terms.xrpl &&
                           o.signed.value.instruction.price >= terms.limit)
  {
  }
}
