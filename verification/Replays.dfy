/** What overlap does to idempotence: when all answers about an RFQ agree, and what a later call gets. */
module Replays {
  import opened Bytes
  import opened Results
  import opened Matching
  import opened Book
  import opened MatchEngine
  import opened Protocol
  import opened Lifetimes
  import opened Lives

  // ---- no two calls on one id between their cache check and their commit ----

  ghost predicate Busy(c: Call, id: Hash) {
    (c.Missed? && c.id == id) || InFlight(c, id)
  }

  ghost predicate OneAtATime(s: State) {
    forall j, k, id | j in s.calls && k in s.calls && Busy(s.calls[j], id) && Busy(s.calls[k], id) :: j == k
  }

  ghost predicate NeverOverlaps(env: Env, steps: seq<Step>) {
    OneAtATime(Exec(env, steps)) && (steps == [] || NeverOverlaps(env, steps[..|steps| - 1]))
  }

  /** Whatever has been told about a life is one outcome. */
  ghost predicate Agreed(s: State) {
    forall j, k, l | j in s.calls && k in s.calls && Tells(s.calls[j], l) && Tells(s.calls[k], l) ::
      s.calls[j].result == s.calls[k].result
  }

  /** An RFQ that holds an outcome has told nothing else, and no call is busy on it. */
  ghost predicate HeldAgrees(s: State, id: Hash) {
    id in s.book.rfqs && s.book.rfqs[id].cached.Some? ==>
      (forall k | k in s.calls && Tells(s.calls[k], Living(s, id)) :: s.calls[k].result == Ok(s.book.rfqs[id].cached.value)) &&
      (forall k | k in s.calls :: !Busy(s.calls[k], id))
  }

  ghost predicate Undecided(c: Call) {
    c.Holding? || c.Decided? || c.Ready?
  }

  /** Nothing has been told about a life that a call is still deciding for. */
  ghost predicate Settled(s: State) {
    Agreed(s) && (forall id :: HeldAgrees(s, id)) &&
    forall k | k in s.calls && Undecided(s.calls[k]) :: Untold(s, LifeOf(s.calls[k].ev))
  }

  /** A call becomes busy on an RFQ only by missing its cache. */
  lemma NewlyBusy(env: Env, s: State, step: Step, k: nat, id: Hash)
    requires WellFiled(s.book) && !step.Intake? && k in Next(env, s, step).calls
    requires Busy(Next(env, s, step).calls[k], id)
    ensures (k in s.calls && Busy(s.calls[k], id)) || CachedFor(s.book, id).None?
  {
  }

  /** A call comes to decide for a life by taking the book that shows it. */
  lemma NewlyUndecided(env: Env, s: State, step: Step, k: nat)
    requires WellFiled(s.book) && step.TakeBook?
    requires k in Next(env, s, step).calls && Undecided(Next(env, s, step).calls[k])
    ensures var c := Next(env, s, step).calls[k];
            (k in s.calls && s.calls[k] == c) ||
            (step.call == k && k in s.calls && Busy(s.calls[k], c.ev.setting.terms.id) &&
             c.ev.setting.terms.id in s.book.rfqs && LifeOf(c.ev) == Living(s, c.ev.setting.terms.id))
  {
  }

  lemma StillUndecided(env: Env, s: State, step: Step, k: nat)
    requires !step.TakeBook? && k in Next(env, s, step).calls && Undecided(Next(env, s, step).calls[k])
    ensures k in s.calls && Undecided(s.calls[k]) && s.calls[k].ev == Next(env, s, step).calls[k].ev
    ensures !(step == Commit(k) && s.calls[k].Ready?)
  {
  }

  /** What a step newly tells about a life agrees with all that was told about it. */
  lemma NewlyToldAgrees(env: Env, s: State, step: Step, j: nat, k: nat, l: Life)
    requires Inv(env, s) && Settled(s) && j in s.calls && Tells(s.calls[j], l)
    requires k in Next(env, s, step).calls && Tells(Next(env, s, step).calls[k], l)
    ensures Next(env, s, step).calls[k].result == s.calls[j].result
  {
    NewlyTold(env, s, step, k, l);
    if step == CheckCache(k) {
      assert HeldAgrees(s, l.terms.id);
    }
  }

  lemma NextAgreed(env: Env, s: State, step: Step)
    requires Inv(env, s) && Settled(s)
    ensures Agreed(Next(env, s, step))
  {
    var t := Next(env, s, step);
    OnlyOwnCallMoves(env, s, step);
    forall j, k, l | j in t.calls && k in t.calls && Tells(t.calls[j], l) && Tells(t.calls[k], l)
      ensures t.calls[j].result == t.calls[k].result
    {
      if j in s.calls && Tells(s.calls[j], l) {
        NewlyToldAgrees(env, s, step, j, k, l);
      } else if k in s.calls && Tells(s.calls[k], l) {
        NewlyToldAgrees(env, s, step, k, j, l);
      }
    }
  }

  lemma IntakeHeld(env: Env, s: State, c: Command, id: Hash)
    requires Settled(s)
    ensures HeldAgrees(IntakeStep(env, s, c), id)
  {
    IntakeKeepsLives(env, s, c);
    assert HeldAgrees(s, id);
  }

  /** A commit on an RFQ that holds an outcome would have had to be busy on it. */
  lemma HeldIsKept(env: Env, s: State, step: Step, id: Hash)
    requires Inv(env, s) && HeldAgrees(s, id) && !step.Intake? && id in s.book.rfqs && s.book.rfqs[id].cached.Some?
    ensures CachedFor(Next(env, s, step).book, id) == CachedFor(s.book, id)
  {
    OnlyCommitWrites(env, s, step);
  }

  /** A step of a call leaves an outcome that was held as it was. */
  lemma CallHeld(env: Env, s: State, step: Step, id: Hash)
    requires Inv(env, s) && HeldAgrees(s, id) && !step.Intake? && id in s.book.rfqs && s.book.rfqs[id].cached.Some?
    ensures HeldAgrees(Next(env, s, step), id)
  {
    var t := Next(env, s, step);
    CallsKeepLives(env, s, step);
    HeldIsKept(env, s, step, id);
    forall k | k in t.calls && Tells(t.calls[k], Living(t, id))
      ensures t.calls[k].result == Ok(s.book.rfqs[id].cached.value)
    {
      ToldOfLiving(env, s, step, id, k);
    }
    forall k | k in t.calls
      ensures !Busy(t.calls[k], id)
    {
      if Busy(t.calls[k], id) {
        NewlyBusy(env, s, step, k, id);
      }
    }
  }

  /** The call that fills an RFQ was busy on it and no longer is. */
  lemma FillFrees(env: Env, s: State, step: Step, id: Hash, k: nat)
    requires Inv(env, s) && OneAtATime(s) && !step.Intake? && id in s.book.rfqs && k in Next(env, s, step).calls
    requires s.book.rfqs[id].cached.None? && CachedFor(Next(env, s, step).book, id).Some?
    ensures !Busy(Next(env, s, step).calls[k], id)
  {
    OnlyCommitWrites(env, s, step);
    OnlyOwnCallMoves(env, s, step);
    assert Busy(s.calls[step.call], id);
  }

  /** The commit that fills an RFQ is the first to tell about it, and leaves no one busy on it. */
  lemma CommitHeld(env: Env, s: State, step: Step, id: Hash)
    requires Inv(env, s) && Quiet(s) && OneAtATime(s) && !step.Intake?
    requires id in s.book.rfqs && s.book.rfqs[id].cached.None? && CachedFor(Next(env, s, step).book, id).Some?
    ensures HeldAgrees(Next(env, s, step), id)
  {
    var t := Next(env, s, step);
    CallsKeepLives(env, s, step);
    assert Untold(s, Living(s, id));
    forall k | k in t.calls && Tells(t.calls[k], Living(t, id))
      ensures t.calls[k].result == Ok(t.book.rfqs[id].cached.value)
    {
      ToldOfLiving(env, s, step, id, k);
    }
    forall k | k in t.calls
      ensures !Busy(t.calls[k], id)
    {
      FillFrees(env, s, step, id, k);
    }
  }

  lemma NextHeld(env: Env, s: State, step: Step, id: Hash)
    requires Inv(env, s) && Quiet(s) && Settled(s) && OneAtATime(s)
    ensures HeldAgrees(Next(env, s, step), id)
  {
    if step.Intake? {
      IntakeHeld(env, s, step.command, id);
    } else {
      CallsKeepLives(env, s, step);
      if id in s.book.rfqs {
        if s.book.rfqs[id].cached.Some? {
          assert HeldAgrees(s, id);
          CallHeld(env, s, step, id);
        } else if CachedFor(Next(env, s, step).book, id).Some? {
          CommitHeld(env, s, step, id);
        }
      }
    }
  }

  /** Two calls that decide at once decide for different RFQs. */
  lemma DecideApart(s: State, j: nat, k: nat)
    requires OneAtATime(s) && j in s.calls && k in s.calls && j != k && Undecided(s.calls[j]) && Undecided(s.calls[k])
    ensures LifeOf(s.calls[j].ev) != LifeOf(s.calls[k].ev)
  {
    assert Busy(s.calls[j], s.calls[j].ev.setting.terms.id) && Busy(s.calls[k], s.calls[k].ev.setting.terms.id);
  }

  /** What a call still decides for stays untold: no one else is busy on the RFQ to tell it. */
  lemma StaysUntold(env: Env, s: State, step: Step, k: nat)
    requires Inv(env, s) && Settled(s) && OneAtATime(s) && !step.Intake?
    requires k in s.calls && Undecided(s.calls[k]) && !(step == Commit(k) && s.calls[k].Ready?)
    ensures Untold(Next(env, s, step), LifeOf(s.calls[k].ev))
  {
    var t, l := Next(env, s, step), LifeOf(s.calls[k].ev);
    assert Busy(s.calls[k], l.terms.id);
    assert HeldAgrees(s, l.terms.id);
    forall j | j in t.calls
      ensures !Tells(t.calls[j], l)
    {
      if j in s.calls && j != k && Undecided(s.calls[j]) {
        DecideApart(s, j, k);
      }
      if Tells(t.calls[j], l) {
        NewlyTold(env, s, step, j, l);
      }
    }
  }

  lemma NewlyUntold(env: Env, s: State, step: Step, k: nat)
    requires Inv(env, s) && Quiet(s) && Settled(s) && OneAtATime(s)
    requires k in Next(env, s, step).calls && Undecided(Next(env, s, step).calls[k])
    ensures Untold(Next(env, s, step), LifeOf(Next(env, s, step).calls[k].ev))
  {
    var t := Next(env, s, step);
    var l := LifeOf(t.calls[k].ev);
    if step.TakeBook? {
      NewlyUndecided(env, s, step, k);
      assert HeldAgrees(s, l.terms.id);
      assert Untold(s, l);
      TakeTellsNothing(env, s, step, l);
    } else {
      StillUndecided(env, s, step, k);
      if step.Intake? {
        assert t.calls == s.calls;
      } else {
        StaysUntold(env, s, step, k);
      }
    }
  }

  lemma TakeTellsNothing(env: Env, s: State, step: Step, l: Life)
    requires WellFiled(s.book) && step.TakeBook? && Untold(s, l)
    ensures Untold(Next(env, s, step), l)
  {
    var t := Next(env, s, step);
    forall j | j in t.calls
      ensures !Tells(t.calls[j], l)
    {
      if Tells(t.calls[j], l) {
        NewlyTold(env, s, step, j, l);
      }
    }
  }

  lemma NextSettled(env: Env, s: State, step: Step)
    requires Inv(env, s) && Quiet(s) && Settled(s) && OneAtATime(s)
    ensures Settled(Next(env, s, step))
  {
    var t := Next(env, s, step);
    NextAgreed(env, s, step);
    forall id
      ensures HeldAgrees(t, id)
    {
      NextHeld(env, s, step, id);
    }
    forall k | k in t.calls && Undecided(t.calls[k])
      ensures Untold(t, LifeOf(t.calls[k].ev))
    {
      NewlyUntold(env, s, step, k);
    }
  }

  lemma {:induction false} ExecSettled(env: Env, steps: seq<Step>)
    requires NeverOverlaps(env, steps)
    ensures Settled(Exec(env, steps))
  {
    if steps != [] {
      var before := steps[..|steps| - 1];
      ExecSettled(env, before);
      ExecInv(env, before);
      ExecQuiet(env, before);
      assert OneAtATime(Exec(env, before));
      NextSettled(env, Exec(env, before), steps[|steps| - 1]);
    }
  }

  /**
   Idempotence: without overlap, all that calls have ever returned about one life of an RFQ is one
   outcome, NO_MATCH included, whether or not the RFQ is still there; and if it is, it holds it.
   */
  lemma ReplaysAgree(env: Env, steps: seq<Step>, l: Life, j: nat, k: nat)
    requires NeverOverlaps(env, steps) && j in Exec(env, steps).calls && k in Exec(env, steps).calls
    requires Tells(Exec(env, steps).calls[j], l) && Tells(Exec(env, steps).calls[k], l)
    ensures var s := Exec(env, steps);
            s.calls[j].result == s.calls[k].result &&
            (l.terms.id in s.book.rfqs && l == Living(s, l.terms.id) ==>
               s.book.rfqs[l.terms.id].cached == Some(s.calls[j].result.value))
  {
    ExecSettled(env, steps);
    ExecQuiet(env, steps);
    var s := Exec(env, steps);
    assert HeldAgrees(s, l.terms.id);
  }

  // ---- what a call that comes later gets ----

  /** A call that is not on id, has yet to look for its outcome, or has replayed it; it is turned away only once id is gone. */
  ghost predicate Replays(s: State, id: Hash, o: Outcome, c: Call) {
    !InFlight(c, id) && (c.Missed? && c.id == id ==> id !in s.book.rfqs) &&
    (c.Done? && c.id == id ==> c.result == Ok(o) || (c.result == Err(RfqUnknown) && id !in s.book.rfqs))
  }

  /** id holds o or is gone, and every call but the given ones replays it. */
  ghost predicate Replaying(s: State, id: Hash, o: Outcome, others: set<nat>) {
    (id in s.book.rfqs ==> s.book.rfqs[id].cached == Some(o)) &&
    (forall k | k in others :: k in s.calls && s.calls[k].Done?) &&
    forall k | k in s.calls && k !in others :: Replays(s, id, o, s.calls[k])
  }

  ghost predicate AddsAgain(env: Env, s: State, step: Step, id: Hash) {
    step.Intake? && Accepts(env, s.book, step.command) && step.command.id == id
  }

  /** After before, none of the steps in after adds id. */
  ghost predicate NeverAdds(env: Env, before: seq<Step>, after: seq<Step>, id: Hash) {
    after == [] ||
    (NeverAdds(env, before, after[..|after| - 1], id) &&
     !AddsAgain(env, Exec(env, before + after[..|after| - 1]), after[|after| - 1], id))
  }

  /** A step that does not add id again keeps its outcome, or lets it go for good. */
  lemma HeldStays(env: Env, s: State, step: Step, id: Hash, o: Outcome, others: set<nat>)
    requires Inv(env, s) && Replaying(s, id, o, others) && !AddsAgain(env, s, step, id)
    ensures var t := Next(env, s, step);
            id in t.book.rfqs ==> id in s.book.rfqs && t.book.rfqs[id].cached == Some(o)
  {
    if !step.Intake? {
      OnlyCommitWrites(env, s, step);
    }
  }

  lemma CallKeepsReplaying(env: Env, s: State, step: Step, id: Hash, o: Outcome, k: nat)
    requires WellFiled(s.book) && (id in s.book.rfqs ==> s.book.rfqs[id].cached == Some(o))
    requires k in s.calls ==> Replays(s, id, o, s.calls[k])
    requires !step.Intake? && k == step.call && k in Next(env, s, step).calls
    ensures Replays(s, id, o, Next(env, s, step).calls[k])
  {
  }

  lemma NextReplaying(env: Env, s: State, step: Step, id: Hash, o: Outcome, others: set<nat>)
    requires Inv(env, s) && Replaying(s, id, o, others) && !AddsAgain(env, s, step, id)
    ensures Replaying(Next(env, s, step), id, o, others)
  {
    var t := Next(env, s, step);
    HeldStays(env, s, step, id, o, others);
    OnlyOwnCallMoves(env, s, step);
    forall k | k in t.calls && k !in others
      ensures Replays(t, id, o, t.calls[k])
    {
      if !step.Intake? && k == step.call {
        CallKeepsReplaying(env, s, step, id, o, k);
      } else {
        assert Replays(s, id, o, s.calls[k]);
      }
    }
  }

  lemma {:induction false} ExecReplaying(env: Env, before: seq<Step>, after: seq<Step>, id: Hash, o: Outcome, others: set<nat>)
    requires Replaying(Exec(env, before), id, o, others) && NeverAdds(env, before, after, id)
    ensures Replaying(Exec(env, before + after), id, o, others)
  {
    if after == [] {
      assert before + after == before;
    } else {
      var earlier, step := after[..|after| - 1], after[|after| - 1];
      ExecReplaying(env, before, earlier, id, o, others);
      ExecInv(env, before + earlier);
      NextReplaying(env, Exec(env, before + earlier), step, id, o, others);
      assert (before + after)[..|before + after| - 1] == before + earlier;
    }
  }

  /**
   Idempotence from the caller's side: once an RFQ holds an outcome and no calls on it have
   overlapped so far, every call on it that is not over yet, and every one to come, ends with that
   very outcome, whatever else happens; or it is turned away because the RFQ is gone. Only adding
   the id again ends this.
   */
  lemma LaterCallsReplay(env: Env, before: seq<Step>, after: seq<Step>, id: Hash, o: Outcome, k: nat)
    requires NeverOverlaps(env, before) && CachedFor(Exec(env, before).book, id) == Some(o)
    requires NeverAdds(env, before, after, id)
    requires k in Exec(env, before).calls ==> !Exec(env, before).calls[k].Done?
    requires k in Exec(env, before + after).calls && Exec(env, before + after).calls[k].Done?
    requires Exec(env, before + after).calls[k].id == id
    ensures var t := Exec(env, before + after);
            t.calls[k].result == Ok(o) || (t.calls[k].result == Err(RfqUnknown) && id !in t.book.rfqs)
  {
    var s := Exec(env, before);
    var over := set j | j in s.calls && s.calls[j].Done?;
    SettledReplays(env, before, id, o, over);
    ExecReplaying(env, before, after, id, o, over);
  }

  lemma SettledReplays(env: Env, before: seq<Step>, id: Hash, o: Outcome, over: set<nat>)
    requires NeverOverlaps(env, before) && CachedFor(Exec(env, before).book, id) == Some(o)
    requires over == set j | j in Exec(env, before).calls && Exec(env, before).calls[j].Done?
    ensures Replaying(Exec(env, before), id, o, over)
  {
    ExecSettled(env, before);
    var s := Exec(env, before);
    forall j | j in s.calls && j !in over
      ensures Replays(s, id, o, s.calls[j])
    {
      assert HeldAgrees(s, id);
    }
  }
}
