/**
 The exact conditions. The two promises of the cache hold along a run exactly when every commit
 finds what these guards ask for; and what a commit could check on the book alone is enough.
 */
module Guards {
  import opened Bytes
  import opened Results
  import opened Matching
  import opened Book
  import opened MatchEngine
  import opened Protocol
  import opened Lifetimes
  import opened Lives

  ghost predicate Commits(s: State, step: Step) {
    step.Commit? && step.call in s.calls && s.calls[step.call].Ready?
  }

  /** Every step of the run finds what ok asks for in the state it meets. */
  ghost predicate Along(env: Env, steps: seq<Step>, ok: (State, Step) -> bool) {
    steps == [] ||
    (Along(env, steps[..|steps| - 1], ok) && ok(Exec(env, steps[..|steps| - 1]), steps[|steps| - 1]))
  }

  // ---- answers agree ----

  /** The RFQ is in this life and holds o: the next call on it would be told so. */
  predicate Holds(s: State, l: Life, o: Outcome) {
    l.terms.id in s.book.rfqs && l == Living(s, l.terms.id) && s.book.rfqs[l.terms.id].cached == Some(o)
  }

  /** o has been returned about l, or would be. */
  predicate Stands(s: State, l: Life, o: Outcome) {
    Told(s, l, o) || Holds(s, l, o)
  }

  /** All that was or would be returned about one life is one outcome, whether or not the RFQ is still there. */
  ghost predicate Agreeing(s: State) {
    forall l, o, p | Stands(s, l, o) && Stands(s, l, p) :: o == p
  }

  /** l is the life the commit decided for, or the one of the RFQ it lands on. */
  predicate Touches(s: State, ev: Evidence, l: Life) {
    l == LifeOf(ev) || (ev.setting.terms.id in s.book.rfqs && l == Living(s, ev.setting.terms.id))
  }

  /** No call has been told anything else about either life. */
  ghost predicate FindsNoOther(s: State, step: Step) {
    Commits(s, step) ==>
      forall k, l | k in s.calls && Tells(s.calls[k], l) && Touches(s, s.calls[step.call].ev, l) ::
        s.calls[k].result == Ok(s.calls[step.call].outcome)
  }

  /** After a commit its outcome is given about both lives, and about no other anything new. */
  lemma CommitStands(env: Env, s: State, step: Step, l: Life, o: Outcome)
    requires Inv(env, s) && Commits(s, step)
    ensures var c := s.calls[step.call];
            Stands(Next(env, s, step), l, o) <==>
            if Touches(s, c.ev, l) then o == c.outcome || Told(s, l, o) else Stands(s, l, o)
  {
    var c, t := s.calls[step.call], Next(env, s, step);
    assert t == CommitStep(s, step.call, c);
    CommitTells(env, s, step, l, o);
    assert Touches(s, c.ev, l) ==> l.terms.id == c.ev.setting.terms.id;
    if l.terms.id == c.ev.setting.terms.id {
      CommitHolds(s, step.call, l, o);
    } else {
      assert Holds(t, l, o) <==> Holds(s, l, o);
    }
  }

  lemma CommitHolds(s: State, call: nat, l: Life, o: Outcome)
    requires WellFiled(s.book) && call in s.calls && s.calls[call].Ready? && l.terms.id == s.calls[call].ev.setting.terms.id
    ensures var t := CommitStep(s, call, s.calls[call]);
            Holds(t, l, o) <==> l.terms.id in s.book.rfqs && l == Living(s, l.terms.id) && o == s.calls[call].outcome
  {
  }

  lemma CommitTells(env: Env, s: State, step: Step, l: Life, o: Outcome)
    requires Commits(s, step)
    ensures var c := s.calls[step.call];
            Told(Next(env, s, step), l, o) <==> Told(s, l, o) || (l == LifeOf(c.ev) && o == c.outcome)
  {
    var c, t := s.calls[step.call], Next(env, s, step);
    assert t == CommitStep(s, step.call, c);
    assert Tells(t.calls[step.call], LifeOf(c.ev)) && t.calls[step.call].result == Ok(c.outcome);
    forall k | k in s.calls && Tells(s.calls[k], l) && s.calls[k].result == Ok(o)
      ensures Told(t, l, o)
    {
      assert t.calls[k] == s.calls[k];
    }
  }

  lemma CommitAgrees(env: Env, s: State, step: Step)
    requires Inv(env, s) && Agreeing(s) && Commits(s, step)
    ensures Agreeing(Next(env, s, step)) <==> FindsNoOther(s, step)
  {
    var c, t := s.calls[step.call], Next(env, s, step);
    if FindsNoOther(s, step) {
      forall l, o, p | Stands(t, l, o) && Stands(t, l, p)
        ensures o == p
      {
        CommitStands(env, s, step, l, o);
        CommitStands(env, s, step, l, p);
      }
    }
    if Agreeing(t) {
      forall k, l | k in s.calls && Tells(s.calls[k], l) && Touches(s, c.ev, l)
        ensures s.calls[k].result == Ok(c.outcome)
      {
        assert Told(s, l, s.calls[k].result.value);
        CommitStands(env, s, step, l, c.outcome);
        CommitStands(env, s, step, l, s.calls[k].result.value);
      }
    }
  }

  /** Any other step gives only what was given before. */
  lemma OthersStand(env: Env, s: State, step: Step, l: Life, o: Outcome)
    requires Inv(env, s) && !Commits(s, step) && Stands(Next(env, s, step), l, o)
    ensures Stands(s, l, o)
  {
    var t := Next(env, s, step);
    if Told(t, l, o) {
      var k :| k in t.calls && Tells(t.calls[k], l) && t.calls[k].result == Ok(o);
      NewlyTold(env, s, step, k, l);
    } else if step.Intake? {
      IntakeKeepsLives(env, s, step.command);
    } else {
      OnlyCommitWrites(env, s, step);
      CallsKeepLives(env, s, step);
    }
  }

  ghost predicate AlwaysAgreeing(env: Env, steps: seq<Step>) {
    Agreeing(Exec(env, steps)) && (steps == [] || AlwaysAgreeing(env, steps[..|steps| - 1]))
  }

  lemma NextAgrees(env: Env, s: State, step: Step)
    requires Inv(env, s) && Agreeing(s)
    ensures Agreeing(Next(env, s, step)) <==> FindsNoOther(s, step)
  {
    if Commits(s, step) {
      CommitAgrees(env, s, step);
    } else {
      forall l, o, p | Stands(Next(env, s, step), l, o) && Stands(Next(env, s, step), l, p)
        ensures o == p
      {
        OthersStand(env, s, step, l, o);
        OthersStand(env, s, step, l, p);
      }
    }
  }

  /**
   Idempotence holds all along a run exactly when every commit, on an RFQ that is there, gone or
   added again, finds that no call has been told another outcome about the life it decided for or
   the one it lands on.
   */
  lemma {:induction false} ReplaysAgreeExactly(env: Env, steps: seq<Step>)
    ensures AlwaysAgreeing(env, steps) <==> Along(env, steps, FindsNoOther)
  {
    if steps != [] {
      var before, step := steps[..|steps| - 1], steps[|steps| - 1];
      ReplaysAgreeExactly(env, before);
      ExecInv(env, before);
      if Agreeing(Exec(env, before)) {
        NextAgrees(env, Exec(env, before), step);
      }
      if Along(env, before, FindsNoOther) {
        assert Agreeing(Exec(env, before));
      }
    }
  }

  // ---- what a commit could check ----

  /** The RFQ holds nothing, or this very outcome. */
  predicate Vacant(s: State, id: Hash, o: Outcome)
    requires id in s.book.rfqs
  {
    s.book.rfqs[id].cached.None? || s.book.rfqs[id].cached == Some(o)
  }

  /** The RFQ is still the one decided for, and holds nothing else. */
  ghost predicate FindsItsOwn(s: State, step: Step) {
    Commits(s, step) ==>
      var c := s.calls[step.call];
      var id := c.ev.setting.terms.id;
      id in s.book.rfqs && LifeOf(c.ev) == Living(s, id) && Vacant(s, id, c.outcome)
  }

  lemma OwnIsNoOther(env: Env, s: State, step: Step)
    requires Inv(env, s) && Quiet(s) && Agreeing(s) && FindsItsOwn(s, step)
    ensures FindsNoOther(s, step)
  {
    if Commits(s, step) {
      var c := s.calls[step.call];
      var l := LifeOf(c.ev);
      if s.book.rfqs[l.terms.id].cached.None? {
        assert Untold(s, l);
      } else {
        assert Stands(s, l, c.outcome);
        forall k | k in s.calls && Tells(s.calls[k], l)
          ensures s.calls[k].result == Ok(c.outcome)
        {
          assert Told(s, l, s.calls[k].result.value);
          assert Stands(s, l, s.calls[k].result.value);
        }
      }
    }
  }

  /** A cache that is only ever filled by its own RFQ's calls, and never with something else, keeps all answers alike. */
  lemma {:induction false} OwnSuffices(env: Env, steps: seq<Step>)
    requires Along(env, steps, FindsItsOwn)
    ensures AlwaysAgreeing(env, steps)
  {
    if steps != [] {
      var before, step := steps[..|steps| - 1], steps[|steps| - 1];
      OwnSuffices(env, before);
      ExecInv(env, before);
      ExecQuiet(env, before);
      OwnIsNoOther(env, Exec(env, before), step);
      NextAgrees(env, Exec(env, before), step);
    }
  }

  /** What the book alone shows of that: the same terms. */
  ghost predicate FindsItsTerms(s: State, step: Step) {
    Commits(s, step) ==>
      var c := s.calls[step.call];
      var t := c.ev.setting.terms;
      t.id in s.book.rfqs && s.book.rfqs[t.id].terms == t && Vacant(s, t.id, c.outcome)
  }

  /** An RFQ is not added with the very terms, arrival included, that a call in flight decides for. */
  ghost predicate AddsNoTwin(env: Env, s: State, step: Step) {
    step.Intake? && Accepts(env, s.book, step.command) ==>
      forall k | k in s.calls && InFlight(s.calls[k], step.command.id) ::
        s.calls[k].ev.setting.terms != IntakeStep(env, s, step.command).book.rfqs[step.command.id].terms
  }

  /** The terms of a call in flight tell its life. */
  ghost predicate TermsTell(s: State) {
    forall k, id | k in s.calls && InFlight(s.calls[k], id) && id in s.book.rfqs &&
                   s.book.rfqs[id].terms == s.calls[k].ev.setting.terms ::
      LifeOf(s.calls[k].ev) == Living(s, id)
  }

  /** A call is in flight as it was before, or has just taken the book. */
  lemma NewlyInFlight(env: Env, s: State, step: Step, k: nat, id: Hash)
    requires WellFiled(s.book) && step.TakeBook?
    requires k in Next(env, s, step).calls && InFlight(Next(env, s, step).calls[k], id)
    ensures (k in s.calls && s.calls[k] == Next(env, s, step).calls[k]) ||
            (id in s.book.rfqs && LifeOf(Next(env, s, step).calls[k].ev) == Living(s, id))
  {
  }

  lemma StillInFlight(env: Env, s: State, step: Step, k: nat, id: Hash)
    requires !step.TakeBook? && !step.Intake?
    requires k in Next(env, s, step).calls && InFlight(Next(env, s, step).calls[k], id)
    ensures k in s.calls && InFlight(s.calls[k], id) && s.calls[k].ev == Next(env, s, step).calls[k].ev
  {
  }

  lemma IntakeTermsTell(env: Env, s: State, c: Command)
    requires TermsTell(s) && AddsNoTwin(env, s, Intake(c))
    ensures TermsTell(IntakeStep(env, s, c))
  {
    IntakeKeepsLives(env, s, c);
  }

  /** The call was in flight before, or decides for the life the book shows. */
  ghost predicate FlightKnown(s: State, c: Call, k: nat, id: Hash)
    requires InFlight(c, id)
  {
    (k in s.calls && InFlight(s.calls[k], id) && s.calls[k].ev == c.ev) ||
    (id in s.book.rfqs && LifeOf(c.ev) == Living(s, id))
  }

  lemma TermsStillTell(s: State, t: State)
    requires TermsTell(s) && t.lives == s.lives && t.book.rfqs.Keys == s.book.rfqs.Keys
    requires forall id | id in s.book.rfqs :: t.book.rfqs[id].terms == s.book.rfqs[id].terms
    requires forall k, id | k in t.calls && InFlight(t.calls[k], id) :: FlightKnown(s, t.calls[k], k, id)
    ensures TermsTell(t)
  {
  }

  lemma NextTermsTell(env: Env, s: State, step: Step)
    requires Inv(env, s) && TermsTell(s) && AddsNoTwin(env, s, step)
    ensures TermsTell(Next(env, s, step))
  {
    if step.Intake? {
      IntakeTermsTell(env, s, step.command);
    } else {
      var t := Next(env, s, step);
      CallsKeepLives(env, s, step);
      forall k, id | k in t.calls && InFlight(t.calls[k], id)
        ensures FlightKnown(s, t.calls[k], k, id)
      {
        if step.TakeBook? {
          NewlyInFlight(env, s, step, k, id);
        } else {
          StillInFlight(env, s, step, k, id);
        }
      }
      TermsStillTell(s, t);
    }
  }

  /** Where the clock keeps twins apart, comparing terms is enough. */
  lemma {:induction false} TermsSuffice(env: Env, steps: seq<Step>)
    requires Along(env, steps, FindsItsTerms) && Along(env, steps, (s: State, step: Step) => AddsNoTwin(env, s, step))
    ensures TermsTell(Exec(env, steps)) && Along(env, steps, FindsItsOwn) && AlwaysAgreeing(env, steps)
  {
    if steps != [] {
      var before, step := steps[..|steps| - 1], steps[|steps| - 1];
      TermsSuffice(env, before);
      ExecInv(env, before);
      var s := Exec(env, before);
      NextTermsTell(env, s, step);
      if Commits(s, step) {
        assert InFlight(s.calls[step.call], s.calls[step.call].ev.setting.terms.id);
      }
    }
    OwnSuffices(env, steps);
  }

  // ---- cached matches name their RFQ ----

  ghost predicate Filed(s: State) {
    forall id | id in s.book.rfqs && s.book.rfqs[id].cached.Some? ::
      Names(s.book.rfqs[id].cached.value, s.book.rfqs[id].terms)
  }

  /** The RFQ is gone, the outcome is NO_MATCH, or it still suits: taker, amount and XRPL address are the same, and the limit is met. */
  ghost predicate FindsSameRfq(s: State, step: Step) {
    Commits(s, step) ==>
      var c := s.calls[step.call];
      var t := c.ev.setting.terms;
      t.id in s.book.rfqs && c.outcome.Matched? ==>
        s.book.rfqs[t.id].terms.taker == t.taker && s.book.rfqs[t.id].terms.amount == t.amount &&
        s.book.rfqs[t.id].terms.xrpl == t.xrpl && c.outcome.signed.Some? &&
        c.outcome.signed.value.instruction.price >= s.book.rfqs[t.id].terms.limit
  }

  lemma CommitFiles(env: Env, s: State, step: Step)
    requires Inv(env, s) && Filed(s) && Commits(s, step)
    ensures Filed(Next(env, s, step)) <==> FindsSameRfq(s, step)
  {
    var c := s.calls[step.call];
    var id := c.ev.setting.terms.id;
    var t := CommitStep(s, step.call, c);
    assert CallSound(env, s, c);
    if id in s.book.rfqs {
      NamesExactly(env, c.ev, c.outcome, s.book.rfqs[id].terms);
      assert t.book.rfqs[id].cached == Some(c.outcome);
    }
    forall i | i in t.book.rfqs && i != id && t.book.rfqs[i].cached.Some?
      ensures Names(t.book.rfqs[i].cached.value, t.book.rfqs[i].terms)
    {
      assert t.book.rfqs[i] == s.book.rfqs[i];
    }
  }

  lemma OthersFile(env: Env, s: State, step: Step)
    requires Filed(s) && !Commits(s, step)
    ensures Filed(Next(env, s, step))
  {
    var t := Next(env, s, step);
    if !step.Intake? {
      OnlyCommitWrites(env, s, step);
    } else {
      forall i | i in t.book.rfqs && t.book.rfqs[i].cached.Some?
        ensures i in s.book.rfqs && t.book.rfqs[i] == s.book.rfqs[i]
      {
      }
    }
  }

  ghost predicate AlwaysFiled(env: Env, steps: seq<Step>) {
    Filed(Exec(env, steps)) && (steps == [] || AlwaysFiled(env, steps[..|steps| - 1]))
  }

  /** Every cached match names the RFQ it sits on, all along a run, exactly when every commit finds an RFQ it still suits. */
  lemma {:induction false} MatchesNameTheirRfqExactly(env: Env, steps: seq<Step>)
    ensures AlwaysFiled(env, steps) <==> Along(env, steps, FindsSameRfq)
  {
    if steps != [] {
      var before, step := steps[..|steps| - 1], steps[|steps| - 1];
      MatchesNameTheirRfqExactly(env, before);
      var s := Exec(env, before);
      ExecInv(env, before);
      if Filed(s) {
        if Commits(s, step) {
          CommitFiles(env, s, step);
        } else {
          OthersFile(env, s, step);
        }
      }
      if Along(env, before, FindsSameRfq) {
        assert Filed(s);
      }
    }
  }
}
