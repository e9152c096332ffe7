/** From the messages that came in to a signed match: nothing wins that its parties did not send. */
module Provenance {
  import opened Bytes
  import opened Results
  import opened Matching
  import opened Book
  import opened MatchEngine
  import opened QuoteAuth
  import opened Protocol
  import opened History
  import H = Handler
  import Text

  /** What reaches the enclave: messages with their arrival, and the steps of calls and sweeps between them. */
  datatype Event =
    | Asking(id: Hash, sender: Address, rfq: H.RfqMessage, now: int)
    | Quoting(quote: H.QuoteMessage, now: int)
    | Acting(step: Step)

  /** The settings of the intake. */
  datatype Desk = Desk(env: Env, windowSec: int, ttlSec: int)

  function AddOf(d: Desk, e: Event): Command
    requires e.Asking? && H.RfqFault(e.sender, e.rfq).None?
  {
    Add(e.id, e.sender, H.ParseUint64(e.rfq.amount).value, Text.ParseInt(e.rfq.limit), e.rfq.xrpl, e.now, d.windowSec, d.ttlSec)
  }

  function SubmitOf(q: QuoteFields, now: int): Command {
    Submit(q.rfqId, q.maker, q.price, q.size, q.nonce, now)
  }

  /** The steps an event leads to: none for a message its handler turns down before the book. */
  function StepsOf(d: Desk, e: Event): seq<Step> {
    match e
    case Asking(_, sender, rfq, _) => if H.RfqFault(sender, rfq).None? then [Intake(AddOf(d, e))] else []
    case Quoting(quote, now) =>
      if H.Vouched(d.env, quote) then [Intake(SubmitOf(H.DecodeQuote(quote).value.0, now))] else []
    case Acting(step) => if step.Intake? && !step.command.Sweep? then [] else [step]
  }

  function Steps(d: Desk, events: seq<Event>): seq<Step> {
    if events == [] then [] else Steps(d, events[..|events| - 1]) + StepsOf(d, events[|events| - 1])
  }

  /** The steps do to the book what the handlers do. */
  lemma StepsAreTheHandlers(d: Desk, e: Event, b: BookState)
    requires !e.Acting?
    ensures var after := if StepsOf(d, e) == [] then b else Apply(d.env.cfg, b, StepsOf(d, e)[0].command);
            match e
            case Asking(id, sender, rfq, now) => H.SubmitRfq(d.env, b, id, sender, rfq, now, d.windowSec, d.ttlSec).0 == after
            case Quoting(quote, now) => H.SubmitQuote(d.env, b, quote, now).0 == after
            case _ => true
  {
  }

  // ---- whatever is in the book was put there by a step ----

  ghost predicate Submits(step: Step, q: Quote) {
    step == Intake(Submit(q.rfqId, q.maker, q.price, q.size, q.nonce, q.receivedAt))
  }

  predicate Adds(step: Step, t: Terms) {
    step.Intake? && step.command.Add? && step.command.id == t.id && step.command.taker == t.taker &&
    step.command.amount == t.amount && step.command.limit == Some(t.limit) && step.command.xrpl == t.xrpl &&
    step.command.now == t.receivedAt
  }

  ghost predicate Submitted(steps: seq<Step>, q: Quote) {
    exists i :: 0 <= i < |steps| && Submits(steps[i], q)
  }

  ghost predicate Added(steps: seq<Step>, t: Terms) {
    exists i :: 0 <= i < |steps| && Adds(steps[i], t)
  }

  ghost predicate Sourced(steps: seq<Step>, b: BookState) {
    (forall id, m | Rests(b, id, m) :: Submitted(steps, b.quotes[id][m])) &&
    (forall id | id in b.rfqs :: Added(steps, b.rfqs[id].terms))
  }

  lemma SubmittedLater(steps: seq<Step>, step: Step, q: Quote)
    requires Submitted(steps, q)
    ensures Submitted(steps + [step], q)
  {
    var i :| 0 <= i < |steps| && Submits(steps[i], q);
    assert Submits((steps + [step])[i], q);
  }

  lemma AddedLater(steps: seq<Step>, step: Step, t: Terms)
    requires Added(steps, t)
    ensures Added(steps + [step], t)
  {
    var i :| 0 <= i < |steps| && Adds(steps[i], t);
    assert Adds((steps + [step])[i], t);
  }

  /** A step leaves a quote as it was, or is its submission. */
  lemma QuoteSource(env: Env, s: State, step: Step, id: Hash, m: Address)
    requires Rests(Next(env, s, step).book, id, m)
    ensures var q := Next(env, s, step).book.quotes[id][m];
            (Rests(s.book, id, m) && s.book.quotes[id][m] == q) || Submits(step, q)
  {
    if !step.Intake? {
      OnlyCommitWrites(env, s, step);
    }
  }

  lemma RfqSource(env: Env, s: State, step: Step, id: Hash)
    requires id in Next(env, s, step).book.rfqs
    ensures var t := Next(env, s, step).book.rfqs[id].terms;
            (id in s.book.rfqs && s.book.rfqs[id].terms == t) || Adds(step, t)
  {
    if !step.Intake? {
      OnlyCommitWrites(env, s, step);
    }
  }

  lemma NextSourced(env: Env, steps: seq<Step>, s: State, step: Step)
    requires Sourced(steps, s.book)
    ensures Sourced(steps + [step], Next(env, s, step).book)
  {
    var b := Next(env, s, step).book;
    forall id, m | Rests(b, id, m)
      ensures Submitted(steps + [step], b.quotes[id][m])
    {
      QuoteSource(env, s, step, id, m);
      if Submits(step, b.quotes[id][m]) {
        assert Submits((steps + [step])[|steps|], b.quotes[id][m]);
      } else {
        SubmittedLater(steps, step, b.quotes[id][m]);
      }
    }
    forall id | id in b.rfqs
      ensures Added(steps + [step], b.rfqs[id].terms)
    {
      RfqSource(env, s, step, id);
      if Adds(step, b.rfqs[id].terms) {
        assert Adds((steps + [step])[|steps|], b.rfqs[id].terms);
      } else {
        AddedLater(steps, step, b.rfqs[id].terms);
      }
    }
  }

  lemma {:induction false} ExecSourced(env: Env, steps: seq<Step>)
    ensures Sourced(steps, Exec(env, steps).book)
  {
    if steps != [] {
      var before, step := steps[..|steps| - 1], steps[|steps| - 1];
      ExecSourced(env, before);
      NextSourced(env, before, Exec(env, before), step);
      assert steps == before + [step];
    }
  }

  // ---- and every such step goes back to a message ----

  lemma AtMostOneStep(d: Desk, e: Event)
    ensures |StepsOf(d, e)| <= 1
  {
  }

  /** Step i is the step of event k, the events before it having led to the i steps before. */
  ghost predicate Leads(d: Desk, events: seq<Event>, k: nat, i: nat) {
    k < |events| && i < |Steps(d, events)| && |Steps(d, events[..k])| == i && StepsOf(d, events[k]) == [Steps(d, events)[i]]
  }

  lemma StepsSnoc(d: Desk, events: seq<Event>, e: Event)
    ensures Steps(d, events + [e]) == Steps(d, events) + StepsOf(d, e)
  {
    assert (events + [e])[..|events|] == events;
  }

  lemma LeadsLater(d: Desk, events: seq<Event>, e: Event, k: nat, i: nat)
    requires Leads(d, events, k, i)
    ensures Leads(d, events + [e], k, i)
  {
    StepsSnoc(d, events, e);
    assert (events + [e])[..k] == events[..k];
  }

  lemma LeadsLast(d: Desk, events: seq<Event>, e: Event, i: nat)
    requires |Steps(d, events)| <= i < |Steps(d, events + [e])|
    ensures Leads(d, events + [e], |events|, i)
  {
    StepsSnoc(d, events, e);
    AtMostOneStep(d, e);
    assert (events + [e])[..|events|] == events;
  }

  lemma {:induction false} StepHasEvent(d: Desk, events: seq<Event>, i: nat)
    requires i < |Steps(d, events)|
    ensures exists k: nat :: Leads(d, events, k, i)
  {
    var before, last := events[..|events| - 1], events[|events| - 1];
    assert events == before + [last];
    if i < |Steps(d, before)| {
      StepHasEvent(d, before, i);
      var k: nat :| Leads(d, before, k, i);
      LeadsLater(d, before, last, k, i);
    } else {
      LeadsLast(d, before, last, i);
    }
  }

  /** e is a vouched message offering exactly q, in when q was received. */
  predicate Offers(d: Desk, e: Event, q: Quote) {
    e.Quoting? && q.price > 0 && H.Backs(d.env, H.Admission(e.quote, e.now), q)
  }

  /** e is an envelope from the taker himself, asking for exactly these terms. */
  predicate Asks(d: Desk, e: Event, t: Terms) {
    e.Asking? && e.sender == t.taker && H.RfqFault(e.sender, e.rfq).None? && e.id == t.id && e.now == t.receivedAt &&
    Text.HexToAddress(e.rfq.taker) == t.taker && H.ParseUint64(e.rfq.amount) == Some(t.amount) &&
    Text.ParseInt(e.rfq.limit) == Some(t.limit) && e.rfq.xrpl == t.xrpl
  }

  lemma EventOffers(d: Desk, e: Event, q: Quote)
    requires |StepsOf(d, e)| == 1 && Submits(StepsOf(d, e)[0], q)
    ensures Offers(d, e, q)
  {
  }

  lemma EventAsks(d: Desk, e: Event, t: Terms)
    requires |StepsOf(d, e)| == 1 && Adds(StepsOf(d, e)[0], t)
    ensures Asks(d, e, t)
  {
  }

  lemma SubmissionIsOffered(d: Desk, events: seq<Event>, i: nat, q: Quote)
    requires i < |Steps(d, events)| && Submits(Steps(d, events)[i], q)
    ensures exists k: nat :: Leads(d, events, k, i) && Offers(d, events[k], q)
  {
    StepHasEvent(d, events, i);
    var k: nat :| Leads(d, events, k, i);
    EventOffers(d, events[k], q);
  }

  lemma AdditionIsAsked(d: Desk, events: seq<Event>, i: nat, t: Terms)
    requires i < |Steps(d, events)| && Adds(Steps(d, events)[i], t)
    ensures exists k: nat :: Leads(d, events, k, i) && Asks(d, events[k], t)
  {
    StepHasEvent(d, events, i);
    var k: nat :| Leads(d, events, k, i);
    EventAsks(d, events[k], t);
  }

  /** A vouched message offering q came in, and led to its step, before step n. */
  ghost predicate OfferedBefore(d: Desk, events: seq<Event>, n: nat, q: Quote) {
    exists k: nat, i: nat :: Leads(d, events, k, i) && i < n && Offers(d, events[k], q)
  }

  ghost predicate AskedBefore(d: Desk, events: seq<Event>, n: nat, t: Terms) {
    exists k: nat, i: nat :: Leads(d, events, k, i) && i < n && Asks(d, events[k], t)
  }

  /** Every quote the enclave rests was offered, and every RFQ asked for, by a message of this run. */
  lemma EverythingWasSent(d: Desk, events: seq<Event>, n: nat, id: Hash)
    requires n <= |Steps(d, events)|
    ensures var b := BookAt(d.env, Steps(d, events), n);
            (forall m | Rests(b, id, m) :: OfferedBefore(d, events, n, b.quotes[id][m])) &&
            (id in b.rfqs ==> AskedBefore(d, events, n, b.rfqs[id].terms))
  {
    var steps := Steps(d, events);
    var b := BookAt(d.env, steps, n);
    ExecSourced(d.env, steps[..n]);
    forall m | Rests(b, id, m)
      ensures OfferedBefore(d, events, n, b.quotes[id][m])
    {
      assert Submitted(steps[..n], b.quotes[id][m]);
      var i :| 0 <= i < n && Submits(steps[..n][i], b.quotes[id][m]);
      SubmissionIsOffered(d, events, i, b.quotes[id][m]);
    }
    if id in b.rfqs {
      assert Added(steps[..n], b.rfqs[id].terms);
      var i :| 0 <= i < n && Adds(steps[..n][i], b.rfqs[id].terms);
      AdditionIsAsked(d, events, i, b.rfqs[id].terms);
    }
  }

  /**
   Over every stream of messages and every interleaving of calls with it, a match an RFQ holds or a
   call has returned was earned by a quote that a message of its maker offered before the snapshot,
   signature and all, on terms that an envelope of the taker asked for before it.
   */
  lemma EveryMatchIsMakerSigned(d: Desk, events: seq<Event>, id: Hash, o: Outcome)
    requires o.Matched? && Given(Exec(d.env, Steps(d, events)), id, o)
    ensures exists v: Visit, w :: v.id == id && Earned(d.env, Steps(d, events), o, v, w) &&
              OfferedBefore(d, events, v.take, w) &&
              AskedBefore(d, events, v.take, View(d.env, Steps(d, events), v).terms)
  {
    var steps := Steps(d, events);
    EveryMatchWasEarned(d.env, steps, id, o);
    var v, w :| Earned(d.env, steps, o, v, w) && v.id == id;
    EverythingWasSent(d, events, v.take, id);
    var b := BookAt(d.env, steps, v.take);
    var m :| m in QuotesOn(b, id) && QuotesOn(b, id)[m] == w;
    assert Rests(b, id, m);
  }
}
