/** Which life of an RFQ each call is about, and what calls have told about it. */
module Lives {
  import opened Bytes
  import opened Results
  import opened Matching
  import opened Book
  import opened MatchEngine
  import opened Protocol

  /** The life a call decides for or has answered about. */
  function LifeIn(c: Call): Option<Life> {
    match c
    case Holding(ev) => Some(LifeOf(ev))
    case Decided(ev, _) => Some(LifeOf(ev))
    case Ready(ev, _) => Some(LifeOf(ev))
    case Done(_, about, _) => about
    case _ => None
  }

  /** The life has begun, and if it is the latest of its id and still in the book, the book shows it. */
  ghost predicate Begun(s: State, l: Life) {
    l.number <= NumberOf(s, l.terms.id) &&
    (l.number == NumberOf(s, l.terms.id) && l.terms.id in s.book.rfqs ==> l == Living(s, l.terms.id))
  }

  ghost predicate Dated(s: State) {
    WellFiled(s.book) &&
    forall k | k in s.calls && LifeIn(s.calls[k]).Some? :: Begun(s, LifeIn(s.calls[k]).value)
  }

  predicate Tells(c: Call, l: Life) {
    c.Done? && c.about == Some(l) && c.result.Ok?
  }

  /** A call has returned o about l. */
  predicate Told(s: State, l: Life, o: Outcome) {
    exists k | k in s.calls :: Tells(s.calls[k], l) && s.calls[k].result == Ok(o)
  }

  ghost predicate Untold(s: State, l: Life) {
    forall k | k in s.calls :: !Tells(s.calls[k], l)
  }

  /** Nothing has been told about an RFQ that holds no outcome. */
  ghost predicate Quiet(s: State) {
    forall id | id in s.book.rfqs && s.book.rfqs[id].cached.None? :: Untold(s, Living(s, id))
  }

  // ---- what a step does to calls, lives and the book ----

  /** A step moves the call it names, and none that is over. */
  lemma OnlyOwnCallMoves(env: Env, s: State, step: Step)
    ensures var t := Next(env, s, step);
            (forall k | k in s.calls :: k in t.calls && (step.Intake? || k != step.call ==> t.calls[k] == s.calls[k])) &&
            (forall k | k in t.calls && (step.Intake? || k != step.call) :: k in s.calls) &&
            (forall k | k in s.calls && s.calls[k].Done? :: t.calls[k] == s.calls[k])
  {
  }

  /** A call keeps the life it is about, or takes up one that the book shows. */
  lemma LifeTaken(env: Env, s: State, step: Step)
    requires WellFiled(s.book) && !step.Intake? && step.call in Next(env, s, step).calls
    ensures var l := LifeIn(Next(env, s, step).calls[step.call]);
            l.None? || (step.call in s.calls && l == LifeIn(s.calls[step.call])) ||
            (l.value.terms.id in s.book.rfqs && l.value == Living(s, l.value.terms.id))
  {
  }

  /** Calls start no life, and write only outcomes. */
  lemma CallsKeepLives(env: Env, s: State, step: Step)
    requires !step.Intake?
    ensures var t := Next(env, s, step);
            t.lives == s.lives && t.book.rfqs.Keys == s.book.rfqs.Keys &&
            forall id | id in s.book.rfqs :: t.book.rfqs[id].terms == s.book.rfqs[id].terms
  {
    OnlyCommitWrites(env, s, step);
  }

  /** An intake starts a new life under one id at most, and leaves what stays of the others. */
  lemma IntakeKeepsLives(env: Env, s: State, c: Command)
    ensures var t := IntakeStep(env, s, c);
            t.calls == s.calls && t.taken == s.taken &&
            forall id ::
              (Accepts(env, s.book, c) && c.id == id && id in t.book.rfqs && t.book.rfqs[id].cached.None? &&
               NumberOf(t, id) == NumberOf(s, id) + 1) ||
              (NumberOf(t, id) == NumberOf(s, id) && (id in t.book.rfqs ==> id in s.book.rfqs && t.book.rfqs[id] == s.book.rfqs[id]))
  {
  }

  lemma BegunLater(s: State, t: State, l: Life)
    requires Begun(s, l)
    requires NumberOf(t, l.terms.id) > NumberOf(s, l.terms.id) ||
             (NumberOf(t, l.terms.id) == NumberOf(s, l.terms.id) &&
              (l.terms.id in t.book.rfqs ==>
                 l.terms.id in s.book.rfqs && t.book.rfqs[l.terms.id].terms == s.book.rfqs[l.terms.id].terms))
    ensures Begun(t, l)
  {
  }

  lemma NextDated(env: Env, s: State, step: Step)
    requires Inv(env, s) && Dated(s)
    ensures Dated(Next(env, s, step))
  {
    var t := Next(env, s, step);
    NextInv(env, s, step);
    if step.Intake? {
      IntakeKeepsLives(env, s, step.command);
    } else {
      CallsKeepLives(env, s, step);
      OnlyOwnCallMoves(env, s, step);
    }
    forall k | k in t.calls && LifeIn(t.calls[k]).Some?
      ensures Begun(t, LifeIn(t.calls[k]).value)
    {
      var l := LifeIn(t.calls[k]).value;
      if !step.Intake? && k == step.call {
        LifeTaken(env, s, step);
      }
      if k in s.calls && LifeIn(s.calls[k]) == Some(l) {
        assert Begun(s, l);
        BegunLater(s, t, l);
      }
    }
  }

  /** Only a call that ends tells anything: what the book held, or what it commits. */
  lemma NewlyTold(env: Env, s: State, step: Step, k: nat, l: Life)
    requires WellFiled(s.book) && k in Next(env, s, step).calls && Tells(Next(env, s, step).calls[k], l)
    ensures var o := Next(env, s, step).calls[k].result;
            (k in s.calls && s.calls[k] == Next(env, s, step).calls[k]) ||
            (step == CheckCache(k) && l.terms.id in s.book.rfqs && l == Living(s, l.terms.id) &&
             s.book.rfqs[l.terms.id].cached == Some(o.value)) ||
            (step == Commit(k) && k in s.calls && s.calls[k].Ready? && l == LifeOf(s.calls[k].ev) &&
             o == Ok(s.calls[k].outcome))
  {
  }

  /** What a step tells about an RFQ that stays in its life, it holds or has told before. */
  lemma ToldOfLiving(env: Env, s: State, step: Step, id: Hash, k: nat)
    requires Inv(env, s) && !step.Intake? && id in s.book.rfqs
    requires k in Next(env, s, step).calls && Tells(Next(env, s, step).calls[k], Living(s, id))
    ensures var r := Next(env, s, step).calls[k].result;
            (k in s.calls && Tells(s.calls[k], Living(s, id)) && s.calls[k].result == r) ||
            CachedFor(Next(env, s, step).book, id) == Some(r.value)
  {
    NewlyTold(env, s, step, k, Living(s, id));
    OnlyCommitWrites(env, s, step);
  }

  lemma UntoldLater(env: Env, s: State, step: Step, id: Hash)
    requires Inv(env, s) && !step.Intake? && id in s.book.rfqs && Untold(s, Living(s, id))
    requires CachedFor(Next(env, s, step).book, id).None?
    ensures Untold(Next(env, s, step), Living(s, id))
  {
    var t := Next(env, s, step);
    forall k | k in t.calls
      ensures !Tells(t.calls[k], Living(s, id))
    {
      if Tells(t.calls[k], Living(s, id)) {
        ToldOfLiving(env, s, step, id, k);
      }
    }
  }

  lemma IntakeQuiet(env: Env, s: State, c: Command, id: Hash)
    requires Dated(s) && Quiet(s)
    requires id in IntakeStep(env, s, c).book.rfqs && IntakeStep(env, s, c).book.rfqs[id].cached.None?
    ensures Untold(IntakeStep(env, s, c), Living(IntakeStep(env, s, c), id))
  {
    var t := IntakeStep(env, s, c);
    IntakeKeepsLives(env, s, c);
    if NumberOf(t, id) == NumberOf(s, id) {
      assert Untold(s, Living(s, id));
    } else {
      forall k | k in s.calls
        ensures !Tells(s.calls[k], Living(t, id))
      {
        if LifeIn(s.calls[k]).Some? {
          assert Begun(s, LifeIn(s.calls[k]).value);
        }
      }
    }
  }

  lemma CallQuiet(env: Env, s: State, step: Step, id: Hash)
    requires Inv(env, s) && Quiet(s) && !step.Intake?
    requires id in Next(env, s, step).book.rfqs && CachedFor(Next(env, s, step).book, id).None?
    ensures Untold(Next(env, s, step), Living(Next(env, s, step), id))
  {
    CallsKeepLives(env, s, step);
    OnlyCommitWrites(env, s, step);
    assert Untold(s, Living(s, id));
    UntoldLater(env, s, step, id);
  }

  lemma NextQuiet(env: Env, s: State, step: Step)
    requires Inv(env, s) && Dated(s) && Quiet(s)
    ensures Quiet(Next(env, s, step))
  {
    var t := Next(env, s, step);
    forall id | id in t.book.rfqs && t.book.rfqs[id].cached.None?
      ensures Untold(t, Living(t, id))
    {
      if step.Intake? {
        IntakeQuiet(env, s, step.command, id);
      } else {
        CallQuiet(env, s, step, id);
      }
    }
  }

  lemma {:induction false} ExecQuiet(env: Env, steps: seq<Step>)
    ensures Dated(Exec(env, steps)) && Quiet(Exec(env, steps))
  {
    if steps != [] {
      var before, step := steps[..|steps| - 1], steps[|steps| - 1];
      ExecQuiet(env, before);
      ExecInv(env, before);
      NextDated(env, Exec(env, before), step);
      NextQuiet(env, Exec(env, before), step);
    }
  }
}
