/** The order in which Go ranges over a quote map shows nowhere: not in the book, not in any answer. */
module Determinism {
  import opened Bytes
  import opened Results
  import opened Matching
  import opened Book
  import opened MatchEngine
  import opened Protocol
  import opened History

  /** The same step, but for the order a map hands its quotes out in. */
  ghost predicate SameStep(p: Step, q: Step) {
    p == q || (p.TakeBook? && q.TakeBook? && p.call == q.call && multiset(p.order) == multiset(q.order))
  }

  ghost predicate SameScript(a: seq<Step>, b: seq<Step>) {
    |a| == |b| && forall i | 0 <= i < |a| :: SameStep(a[i], b[i])
  }

  ghost predicate SameEvidence(e: Evidence, f: Evidence) {
    e.makers == f.makers && e.setting == f.setting && e.byMaker == f.byMaker && e.number == f.number
  }

  ghost predicate SameCall(c: Call, d: Call) {
    match (c, d)
    case (Holding(e), Holding(f)) => SameEvidence(e, f)
    case (Decided(e, o), Decided(f, p)) => SameEvidence(e, f) && o == p
    case (Ready(e, o), Ready(f, p)) => SameEvidence(e, f) && o == p
    case _ => c == d
  }

  /** Equal but for the orders that evidence was gathered in. */
  ghost predicate SameState(s: State, t: State) {
    s.book == t.book && s.lives == t.lives && s.calls.Keys == t.calls.Keys &&
    forall k | k in s.calls :: SameCall(s.calls[k], t.calls[k])
  }

  lemma {:induction false} CountOf(order: seq<Address>, m: Address)
    ensures multiset(order)[m] > 1 <==> exists i, j :: 0 <= i < j < |order| && order[i] == m && order[j] == m
  {
    if order != [] {
      var rest, last := order[..|order| - 1], order[|order| - 1];
      assert order == rest + [last];
      CountOf(rest, m);
      if last == m && m in rest {
        var i :| 0 <= i < |rest| && rest[i] == m;
        assert order[i] == m && order[|rest|] == m;
      }
    }
  }

  lemma OrdersArePermutable(a: seq<Address>, b: seq<Address>, makers: set<Address>)
    requires multiset(a) == multiset(b) && IsOrder(a, makers)
    ensures IsOrder(b, makers)
  {
    forall m
      ensures m in b <==> m in makers
    {
      assert m in a <==> m in multiset(a);
      assert m in b <==> m in multiset(b);
    }
    forall i, j | 0 <= i < j < |b|
      ensures b[i] != b[j]
    {
      CountOf(a, b[i]);
      CountOf(b, b[i]);
    }
  }

  /** Quotes that were taken together came out of one ordered book. */
  lemma TakenQuotesDiffer(env: Env, steps: seq<Step>, ev: Evidence, order: seq<Address>)
    requires |steps| < TWO64 && ev in Exec(env, steps).taken && IsOrder(order, ev.byMaker.Keys)
    ensures DistinctSeqs(InOrder(ev.byMaker, order))
  {
    ExecRecorded(env, steps);
    assert EvidenceRecorded(env, steps, ev);
    var v :| TakenIn(env, steps, v, ev) && v.id == ev.setting.terms.id;
    BookIsOrdered(env, steps[..v.take]);
    OrderedQuotesAreDistinct(BookAt(env, steps, v.take), v.id, order);
  }

  lemma VerdictsAgree(env: Env, steps: seq<Step>, e: Evidence, f: Evidence)
    requires |steps| < TWO64 && e in Exec(env, steps).taken && SameEvidence(e, f) && Orderly(e) && Orderly(f)
    ensures Verdict(e) == Verdict(f)
  {
    TakenQuotesDiffer(env, steps, e, e.order);
    TakenQuotesDiffer(env, steps, e, f.order);
    OrdersPermute(e.byMaker, e.order, f.order);
    OrderIsIrrelevant(e.setting, InOrder(e.byMaker, e.order), InOrder(f.byMaker, f.order));
  }

  lemma SameMove(s: State, t: State, s': State, t': State, call: nat, c: Call, d: Call)
    requires SameState(s, t) && SameCall(c, d) && s'.book == t'.book && s'.lives == t'.lives
    requires s'.calls == s.calls[call := c] && t'.calls == t.calls[call := d]
    ensures SameState(s', t')
  {
  }

  lemma HeldIsOrderly(env: Env, s: State, call: nat)
    requires Inv(env, s) && call in s.calls && s.calls[call].Holding?
    ensures s.calls[call].ev in s.taken && Orderly(s.calls[call].ev)
  {
    assert CallSound(env, s, s.calls[call]);
  }

  /** Where a call goes from its evidence. */
  ghost function Computed(env: Env, ev: Evidence): Call
    requires Orderly(ev)
  {
    if ev.setting.now < ev.setting.terms.windowEndsAt then Done(ev.setting.terms.id, Some(LifeOf(ev)), Err(WindowOpen))
    else
      match Verdict(ev)
      case Err(e) => Done(ev.setting.terms.id, Some(LifeOf(ev)), Err(e))
      case Ok(d) => Decided(ev, OutcomeOf(env.keccak, ev.setting, d))
  }

  lemma ComputeMoves(env: Env, s: State, call: nat, ev: Evidence)
    requires Orderly(ev)
    ensures ComputeStep(env, s, call, ev) == Move(s, call, Computed(env, ev))
  {
  }

  lemma ComputedAgree(env: Env, e: Evidence, f: Evidence)
    requires SameEvidence(e, f) && Orderly(e) && Orderly(f) && Verdict(e) == Verdict(f)
    ensures SameCall(Computed(env, e), Computed(env, f))
  {
  }

  lemma ComputesAgree(env: Env, steps: seq<Step>, t: State, call: nat)
    requires |steps| < TWO64 && SameState(Exec(env, steps), t) && Inv(env, Exec(env, steps)) && Inv(env, t)
    requires call in Exec(env, steps).calls && Exec(env, steps).calls[call].Holding?
    ensures t.calls[call].Holding? && Orderly(Exec(env, steps).calls[call].ev) && Orderly(t.calls[call].ev)
    ensures SameState(ComputeStep(env, Exec(env, steps), call, Exec(env, steps).calls[call].ev),
                      ComputeStep(env, t, call, t.calls[call].ev))
  {
    var s := Exec(env, steps);
    assert SameCall(s.calls[call], t.calls[call]);
    var e, f := s.calls[call].ev, t.calls[call].ev;
    HeldIsOrderly(env, s, call);
    HeldIsOrderly(env, t, call);
    VerdictsAgree(env, steps, e, f);
    ComputedAgree(env, e, f);
    ComputeMoves(env, s, call, e);
    ComputeMoves(env, t, call, f);
    SameMove(s, t, Move(s, call, Computed(env, e)), Move(t, call, Computed(env, f)), call, Computed(env, e), Computed(env, f));
  }

  /** Either both orders are orders of the makers, or neither is. */
  lemma OrdersGoTogether(a: seq<Address>, b: seq<Address>, makers: set<Address>)
    requires multiset(a) == multiset(b)
    ensures IsOrder(a, makers) <==> IsOrder(b, makers)
  {
    if IsOrder(a, makers) {
      OrdersArePermutable(a, b, makers);
    } else if IsOrder(b, makers) {
      OrdersArePermutable(b, a, makers);
    }
  }

  lemma TakenAgree(env: Env, s: State, t: State, call: nat, c: Call, a: seq<Address>, b: seq<Address>)
    requires SameState(s, t) && call in s.calls && s.calls[call] == c && c.Missed? && multiset(a) == multiset(b)
    ensures SameState(TakeStep(env, s, call, c, a), TakeStep(env, t, call, c, b))
  {
    OrdersGoTogether(a, b, QuotesOn(s.book, c.id).Keys);
    var s', t' := TakeStep(env, s, call, c, a), TakeStep(env, t, call, c, b);
    if s' != s {
      SameMove(s, t, s', t', call, s'.calls[call], t'.calls[call]);
    }
  }

  lemma TakesAgree(env: Env, s: State, t: State, p: Step, q: Step)
    requires SameState(s, t) && p.TakeBook? && SameStep(p, q)
    ensures SameState(Next(env, s, p), Next(env, t, q))
  {
    if p.call in s.calls {
      assert SameCall(s.calls[p.call], t.calls[p.call]);
      if s.calls[p.call].Missed? {
        TakenAgree(env, s, t, p.call, s.calls[p.call], p.order, q.order);
      }
    }
  }

  function Signed(ev: Evidence, r: Result<Outcome, MatchError>): Call {
    match r
    case Err(e) => Done(ev.setting.terms.id, Some(LifeOf(ev)), Err(e))
    case Ok(o) => Ready(ev, o)
  }

  lemma SignedAgree(e: Evidence, f: Evidence, r: Result<Outcome, MatchError>)
    requires SameEvidence(e, f)
    ensures SameCall(Signed(e, r), Signed(f, r))
  {
  }

  lemma SignMoves(env: Env, s: State, call: nat, c: Call, reply: Option<seq<Byte>>)
    requires c.Decided?
    ensures SignStep(env, s, call, c, reply) == Move(s, call, Signed(c.ev, Finish(env, c.outcome, reply)))
  {
  }

  lemma SignsAgree(env: Env, s: State, t: State, call: nat, reply: Option<seq<Byte>>)
    requires SameState(s, t) && call in s.calls && s.calls[call].Decided?
    ensures t.calls[call].Decided?
    ensures SameState(SignStep(env, s, call, s.calls[call], reply), SignStep(env, t, call, t.calls[call], reply))
  {
    var c, d := s.calls[call], t.calls[call];
    assert SameCall(c, d);
    var r := Finish(env, c.outcome, reply);
    SignMoves(env, s, call, c, reply);
    SignMoves(env, t, call, d, reply);
    SignedAgree(c.ev, d.ev, r);
    SameMove(s, t, Move(s, call, Signed(c.ev, r)), Move(t, call, Signed(d.ev, r)), call, Signed(c.ev, r), Signed(d.ev, r));
  }

  lemma CommitsAgree(env: Env, s: State, t: State, call: nat)
    requires SameState(s, t) && call in s.calls && s.calls[call].Ready?
    ensures SameState(Next(env, s, Commit(call)), Next(env, t, Commit(call)))
  {
    assert SameCall(s.calls[call], t.calls[call]);
    var s', t' := CommitStep(s, call, s.calls[call]), CommitStep(t, call, t.calls[call]);
    SameMove(s.(book := s'.book, lives := s'.lives), t.(book := s'.book, lives := s'.lives), s', t', call,
             s'.calls[call], t'.calls[call]);
  }

  lemma ReadsAgree(env: Env, s: State, t: State, p: Step)
    requires SameState(s, t) && (p.Begin? || p.ReadChain?)
    ensures SameState(Next(env, s, p), Next(env, t, p))
  {
    if p.call in s.calls {
      assert SameCall(s.calls[p.call], t.calls[p.call]);
    }
  }

  lemma ChecksAgree(env: Env, s: State, t: State, call: nat)
    requires SameState(s, t)
    ensures SameState(Next(env, s, CheckCache(call)), Next(env, t, CheckCache(call)))
  {
    if call in s.calls {
      assert SameCall(s.calls[call], t.calls[call]);
    }
  }

  lemma IntakesAgree(env: Env, s: State, t: State, c: Command)
    requires SameState(s, t)
    ensures SameState(IntakeStep(env, s, c), IntakeStep(env, t, c))
  {
  }

  lemma NextAgree(env: Env, steps: seq<Step>, t: State, p: Step, q: Step)
    requires |steps| < TWO64 && SameState(Exec(env, steps), t) && Inv(env, Exec(env, steps)) && Inv(env, t)
    requires SameStep(p, q)
    ensures SameState(Next(env, Exec(env, steps), p), Next(env, t, q))
  {
    var s := Exec(env, steps);
    if p.TakeBook? {
      TakesAgree(env, s, t, p, q);
    } else if p.Compute? {
      if p.call in s.calls {
        assert SameCall(s.calls[p.call], t.calls[p.call]);
        if s.calls[p.call].Holding? {
          ComputesAgree(env, steps, t, p.call);
        }
      }
    } else if p.Sign? || p.Commit? {
      if p.call in s.calls {
        assert SameCall(s.calls[p.call], t.calls[p.call]);
        if p.Sign? && s.calls[p.call].Decided? {
          SignsAgree(env, s, t, p.call, p.reply);
        } else if p.Commit? && s.calls[p.call].Ready? {
          CommitsAgree(env, s, t, p.call);
        }
      }
    } else if p.Intake? {
      IntakesAgree(env, s, t, p.command);
    } else if p.CheckCache? {
      ChecksAgree(env, s, t, p.call);
    } else {
      ReadsAgree(env, s, t, p);
    }
  }

  /** Two runs that differ only in map orders end with one book and the same calls. */
  lemma {:induction false} RunsIgnoreMapOrder(env: Env, a: seq<Step>, b: seq<Step>)
    requires |a| < TWO64 && SameScript(a, b)
    ensures SameState(Exec(env, a), Exec(env, b))
  {
    if a != [] {
      var x, y := a[..|a| - 1], b[..|b| - 1];
      RunsIgnoreMapOrder(env, x, y);
      ExecInv(env, x);
      ExecInv(env, y);
      NextAgree(env, x, Exec(env, y), a[|a| - 1], b[|b| - 1]);
    }
  }
}
