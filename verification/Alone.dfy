/** One call left to itself, step by step: the method that runs it through is the machine's own run. */
module Alone {
  import opened Bytes
  import opened Results
  import opened Matching
  import opened Book
  import opened MatchEngine
  import opened Protocol
  import Chain = ChainCache
  import Signing

  /** The seven steps of call k on id, with nothing between them. */
  function Steps(k: nat, id: Hash, cache: Chain.CacheState, staleMaxSec: int, now: int, order: seq<Address>,
                 reply: Option<seq<Byte>>): seq<Step>
  {
    [Begin(k, id), ReadChain(k, cache, staleMaxSec, now), CheckCache(k), TakeBook(k, order), Compute(k), Sign(k, reply),
     Commit(k)]
  }

  /** The state after taking steps from s. */
  ghost function After(env: Env, s: State, steps: seq<Step>): State
    decreases |steps|
  {
    if steps == [] then s else After(env, Next(env, s, steps[0]), steps[1..])
  }

  /** Steps taken after a run go on with it. */
  lemma {:induction false} AfterIsExec(env: Env, before: seq<Step>, steps: seq<Step>)
    ensures After(env, Exec(env, before), steps) == Exec(env, before + steps)
    decreases |steps|
  {
    if steps == [] {
      assert before + steps == before;
    } else {
      var first := before + [steps[0]];
      assert first[..|first| - 1] == before;
      AfterIsExec(env, first, steps[1..]);
      assert first + steps[1..] == before + steps;
    }
  }

  lemma SevenSteps(env: Env, s: State, a: Step, b: Step, c: Step, d: Step, e: Step, f: Step, g: Step)
    ensures After(env, s, [a, b, c, d, e, f, g]) ==
            Next(env, Next(env, Next(env, Next(env, Next(env, Next(env, Next(env, s, a), b), c), d), e), f), g)
  {
    FourSteps(env, s, a, b, c, [d, e, f, g]);
    assert [a, b, c, d, e, f, g] == [a, b, c] + [d, e, f, g];
    FourSteps(env, Next(env, Next(env, Next(env, s, a), b), c), d, e, f, [g]);
    assert [d, e, f, g] == [d, e, f] + [g];
    assert [g][1..] == [];
  }

  lemma FourSteps(env: Env, s: State, a: Step, b: Step, c: Step, rest: seq<Step>)
    ensures After(env, s, [a, b, c] + rest) == After(env, Next(env, Next(env, Next(env, s, a), b), c), rest)
  {
    OneStep(env, s, a, [b, c] + rest);
    OneStep(env, Next(env, s, a), b, [c] + rest);
    OneStep(env, Next(env, Next(env, s, a), b), c, rest);
    assert [a, b, c] + rest == [a] + ([b, c] + rest);
    assert [b, c] + rest == [b] + ([c] + rest);
  }

  lemma OneStep(env: Env, s: State, a: Step, rest: seq<Step>)
    ensures After(env, s, [a] + rest) == After(env, Next(env, s, a), rest)
  {
    assert ([a] + rest)[1..] == rest;
  }

  /** A call that is over stays as it is, and changes nothing. */
  lemma OverIsOver(env: Env, s: State, k: nat, cache: Chain.CacheState, staleMaxSec: int, now: int, order: seq<Address>,
                   reply: Option<seq<Byte>>)
    requires k in s.calls && s.calls[k].Done?
    ensures Next(env, s, ReadChain(k, cache, staleMaxSec, now)) == s && Next(env, s, CheckCache(k)) == s
    ensures Next(env, s, TakeBook(k, order)) == s && Next(env, s, Compute(k)) == s
    ensures Next(env, s, Sign(k, reply)) == s && Next(env, s, Commit(k)) == s
  {
  }

  /** What the chain cache tells a call that begins on b. */
  function Told(env: Env, b: BookState, id: Hash, cache: Chain.CacheState, staleMaxSec: int, now: int): Setting
    requires id in b.rfqs
  {
    var terms := b.rfqs[id].terms;
    SettingFor(env, terms, Chain.SnapshotOf(cache, staleMaxSec, terms.taker, QuotesOn(b, id).Keys, now), now)
  }

  /** The reply the port gives to what the machine asks it to sign. */
  function Reply(env: Env, s: Setting, quotes: seq<Quote>, port: Signing.SignPort): Option<seq<Byte>> {
    match Decide(s, quotes)
    case Err(_) => None
    case Ok(d) => PortReply(env, OutcomeOf(env.keccak, s, d), port)
  }

  lemma FirstThree(env: Env, s: State, k: nat, id: Hash, cache: Chain.CacheState, staleMaxSec: int, now: int)
    requires id in s.book.rfqs && k !in s.calls
    ensures var t := Next(env, Next(env, Next(env, s, Begin(k, id)), ReadChain(k, cache, staleMaxSec, now)), CheckCache(k));
            t.book == s.book &&
            match CachedFor(s.book, id)
            case Some(o) => t == Move(s, k, Done(id, Some(Living(s, id)), Ok(o)))
            case None =>
              t == Move(s, k, Missed(id, QuotesOn(s.book, id).Keys, Told(env, s.book, id, cache, staleMaxSec, now).snap, now))
  {
    var makers, snap := QuotesOn(s.book, id).Keys, Told(env, s.book, id, cache, staleMaxSec, now).snap;
    var a := Next(env, s, Begin(k, id));
    assert a == Move(s, k, Listed(id, s.book.rfqs[id].terms.taker, makers));
    var c := Next(env, a, ReadChain(k, cache, staleMaxSec, now));
    assert c == Move(s, k, Informed(id, makers, snap, now));
    match CachedFor(s.book, id)
    case Some(o) => assert Next(env, c, CheckCache(k)) == Move(s, k, Done(id, Some(Living(s, id)), Ok(o)));
    case None => assert Next(env, c, CheckCache(k)) == Move(s, k, Missed(id, makers, snap, now));
  }

  /** From a missed cache on, the machine gives the answer. */
  lemma LastFour(env: Env, s: State, k: nat, id: Hash, setting: Setting, order: seq<Address>, port: Signing.SignPort)
    requires WellFiled(s.book) && id in s.book.rfqs && IsOrder(order, QuotesOn(s.book, id).Keys)
    requires setting == SettingFor(env, s.book.rfqs[id].terms, setting.snap, setting.now)
    requires k in s.calls && s.calls[k] == Missed(id, QuotesOn(s.book, id).Keys, setting.snap, setting.now)
    ensures var quotes := InOrder(QuotesOn(s.book, id), order);
            var reply := Reply(env, setting, quotes, port);
            var t := Next(env, Next(env, Next(env, Next(env, s, TakeBook(k, order)), Compute(k)), Sign(k, reply)), Commit(k));
            var r := Answer(env, setting, quotes, port);
            k in t.calls && t.calls[k].Done? && t.calls[k].result == r &&
            t.book == match r case Ok(o) => CacheOutcome(s.book, id, o) case Err(_) => s.book
  {
    var quotes := InOrder(QuotesOn(s.book, id), order);
    var reply := Reply(env, setting, quotes, port);
    var ev := Evidence(QuotesOn(s.book, id).Keys, setting, QuotesOn(s.book, id), order, NumberOf(s, id));
    var a := Next(env, s, TakeBook(k, order));
    assert a == TakeStep(env, s, k, s.calls[k], order) && a.calls[k] == Holding(ev) && a.book == s.book;
    AfterTaking(env, a, k, id, ev, reply, port);
  }

  lemma AfterTaking(env: Env, a: State, k: nat, id: Hash, ev: Evidence, reply: Option<seq<Byte>>, port: Signing.SignPort)
    requires k in a.calls && a.calls[k] == Holding(ev) && Orderly(ev) && ev.setting.terms.id == id
    requires reply == Reply(env, ev.setting, InOrder(ev.byMaker, ev.order), port)
    ensures var t := Next(env, Next(env, Next(env, a, Compute(k)), Sign(k, reply)), Commit(k));
            var r := Answer(env, ev.setting, InOrder(ev.byMaker, ev.order), port);
            k in t.calls && t.calls[k].Done? && t.calls[k].result == r &&
            t.book == match r case Ok(o) => CacheOutcome(a.book, id, o) case Err(_) => a.book
  {
    var c := Next(env, a, Compute(k));
    assert c == ComputeStep(env, a, k, ev);
    if ev.setting.now >= ev.setting.terms.windowEndsAt && Verdict(ev).Ok? {
      var o := OutcomeOf(env.keccak, ev.setting, Verdict(ev).value);
      assert c == Move(a, k, Decided(ev, o));
      var d := Next(env, c, Sign(k, reply));
      assert d == SignStep(env, c, k, c.calls[k], reply);
      if Finish(env, o, reply).Ok? {
        assert d == Move(c, k, Ready(ev, Finish(env, o, reply).value));
        assert Next(env, d, Commit(k)) == CommitStep(d, k, d.calls[k]);
      }
    }
  }

  /** Left to itself from s, call k ends with r and leaves this book. */
  ghost predicate Ends(env: Env, s: State, k: nat, id: Hash, cache: Chain.CacheState, staleMaxSec: int, now: int,
                       order: seq<Address>, reply: Option<seq<Byte>>, r: Result<Outcome, MatchError>, book: BookState)
  {
    var t := After(env, s, Steps(k, id, cache, staleMaxSec, now, order, reply));
    k in t.calls && t.calls[k].Done? && t.calls[k].result == r && t.book == book
  }

  /** What a call finds on b: nothing, an outcome, or the quotes it has to answer from. */
  function Finds(env: Env, b: BookState, id: Hash, setting: Setting, quotes: seq<Quote>, port: Signing.SignPort)
    : Result<Outcome, MatchError>
  {
    if id !in b.rfqs then Err(RfqUnknown)
    else
      match CachedFor(b, id)
      case Some(o) => Ok(o)
      case None => Answer(env, setting, quotes, port)
  }

  function Leaves(b: BookState, id: Hash, r: Result<Outcome, MatchError>): BookState {
    match r
    case Err(_) => b
    case Ok(o) => CacheOutcome(b, id, o)
  }

  lemma CachedStays(b: BookState, id: Hash)
    requires CachedFor(b, id).Some?
    ensures CacheOutcome(b, id, CachedFor(b, id).value) == b
  {
    assert b.rfqs[id := b.rfqs[id].(cached := CachedFor(b, id))] == b.rfqs;
  }

  lemma LoneKnown(env: Env, s: State, k: nat, id: Hash, cache: Chain.CacheState, staleMaxSec: int, now: int,
                  order: seq<Address>, port: Signing.SignPort)
    requires WellFiled(s.book) && IsOrder(order, QuotesOn(s.book, id).Keys) && k !in s.calls && id in s.book.rfqs
    ensures var setting, quotes := Told(env, s.book, id, cache, staleMaxSec, now), InOrder(QuotesOn(s.book, id), order);
            var r := Finds(env, s.book, id, setting, quotes, port);
            Ends(env, s, k, id, cache, staleMaxSec, now, order, Reply(env, setting, quotes, port), r, Leaves(s.book, id, r))
  {
    var setting, quotes := Told(env, s.book, id, cache, staleMaxSec, now), InOrder(QuotesOn(s.book, id), order);
    var reply := Reply(env, setting, quotes, port);
    SevenSteps(env, s, Begin(k, id), ReadChain(k, cache, staleMaxSec, now), CheckCache(k), TakeBook(k, order), Compute(k),
               Sign(k, reply), Commit(k));
    FirstThree(env, s, k, id, cache, staleMaxSec, now);
    var third := Next(env, Next(env, Next(env, s, Begin(k, id)), ReadChain(k, cache, staleMaxSec, now)), CheckCache(k));
    if CachedFor(s.book, id).Some? {
      OverIsOver(env, third, k, cache, staleMaxSec, now, order, reply);
      CachedStays(s.book, id);
    } else {
      LastFour(env, third, k, id, setting, order, port);
    }
  }

  lemma LoneUnknown(env: Env, s: State, k: nat, id: Hash, cache: Chain.CacheState, staleMaxSec: int, now: int,
                    order: seq<Address>, reply: Option<seq<Byte>>)
    requires k !in s.calls && id !in s.book.rfqs
    ensures Ends(env, s, k, id, cache, staleMaxSec, now, order, reply, Err(RfqUnknown), s.book)
  {
    SevenSteps(env, s, Begin(k, id), ReadChain(k, cache, staleMaxSec, now), CheckCache(k), TakeBook(k, order), Compute(k),
               Sign(k, reply), Commit(k));
    OverIsOver(env, Next(env, s, Begin(k, id)), k, cache, staleMaxSec, now, order, reply);
  }

  /** On whatever machine state shows the book b, the seven steps of a new call do just this. */
  ghost predicate Performs(env: Env, b: BookState, id: Hash, cache: Chain.CacheState, staleMaxSec: int, now: int,
                           order: seq<Address>, reply: Option<seq<Byte>>, r: Result<Outcome, MatchError>, book: BookState)
  {
    forall s: State, k: nat | s.book == b && WellFiled(b) && k !in s.calls ::
      Ends(env, s, k, id, cache, staleMaxSec, now, order, reply, r, book)
  }

  /**
   Whatever the book, the cache and the port, a call that no other step comes between ends with the
   RFQ unknown, with the cached outcome or with the answer, and leaves the book accordingly.
   */
  lemma LoneCall(env: Env, b: BookState, id: Hash, cache: Chain.CacheState, staleMaxSec: int, now: int,
                 order: seq<Address>, port: Signing.SignPort) returns (reply: Option<seq<Byte>>)
    requires id in b.rfqs ==> IsOrder(order, QuotesOn(b, id).Keys)
    ensures id !in b.rfqs ==> Performs(env, b, id, cache, staleMaxSec, now, order, reply, Err(RfqUnknown), b)
    ensures id in b.rfqs ==>
              var r := Finds(env, b, id, Told(env, b, id, cache, staleMaxSec, now), InOrder(QuotesOn(b, id), order), port);
              Performs(env, b, id, cache, staleMaxSec, now, order, reply, r, Leaves(b, id, r))
  {
    if id in b.rfqs {
      var setting, quotes := Told(env, b, id, cache, staleMaxSec, now), InOrder(QuotesOn(b, id), order);
      var r := Finds(env, b, id, setting, quotes, port);
      reply := Reply(env, setting, quotes, port);
      forall s: State, k: nat | s.book == b && WellFiled(b) && k !in s.calls
        ensures Ends(env, s, k, id, cache, staleMaxSec, now, order, reply, r, Leaves(b, id, r))
      {
        LoneKnown(env, s, k, id, cache, staleMaxSec, now, order, port);
      }
    } else {
      reply := None;
      forall s: State, k: nat | s.book == b && WellFiled(b) && k !in s.calls
        ensures Ends(env, s, k, id, cache, staleMaxSec, now, order, reply, Err(RfqUnknown), b)
      {
        LoneUnknown(env, s, k, id, cache, staleMaxSec, now, order, reply);
      }
    }
  }

  /** For some order of the quotes and some reply of the port, r and book are what the seven steps come to. */
  ghost predicate Plays(env: Env, b: BookState, id: Hash, cache: Chain.CacheState, staleMaxSec: int, now: int,
                        r: Result<Outcome, MatchError>, book: BookState)
  {
    exists order, reply :: Performs(env, b, id, cache, staleMaxSec, now, order, reply, r, book)
  }

  lemma UnknownPlays(env: Env, b: BookState, id: Hash, cache: Chain.CacheState, staleMaxSec: int, now: int)
    requires id !in b.rfqs
    ensures Plays(env, b, id, cache, staleMaxSec, now, Err(RfqUnknown), b)
  {
    var reply := LoneCall(env, b, id, cache, staleMaxSec, now, [], (m: seq<Byte>) => None);
  }

  lemma CachedPlays(env: Env, b: BookState, id: Hash, cache: Chain.CacheState, staleMaxSec: int, now: int,
                    order: seq<Address>)
    requires id in b.rfqs && CachedFor(b, id).Some? && IsOrder(order, QuotesOn(b, id).Keys)
    ensures Plays(env, b, id, cache, staleMaxSec, now, Ok(CachedFor(b, id).value), b)
  {
    var reply := LoneCall(env, b, id, cache, staleMaxSec, now, order, (m: seq<Byte>) => None);
    CachedStays(b, id);
  }

  lemma AnswerPlays(env: Env, b: BookState, id: Hash, cache: Chain.CacheState, staleMaxSec: int, now: int,
                    port: Signing.SignPort, r: Result<Outcome, MatchError>)
    requires id in b.rfqs && CachedFor(b, id).None?
    requires GivesAnswer(env, Told(env, b, id, cache, staleMaxSec, now), QuotesOn(b, id), port, r)
    ensures Plays(env, b, id, cache, staleMaxSec, now, r, Leaves(b, id, r))
  {
    var setting := Told(env, b, id, cache, staleMaxSec, now);
    var order :| IsOrder(order, QuotesOn(b, id).Keys) && r == Answer(env, setting, InOrder(QuotesOn(b, id), order), port);
    var reply := LoneCall(env, b, id, cache, staleMaxSec, now, order, port);
  }

  /** Every set of makers has an order. */
  ghost function SomeOrder(makers: set<Address>): (order: seq<Address>)
    ensures IsOrder(order, makers)
  {
    if makers == {} then []
    else
      var m :| m in makers;
      SomeOrder(makers - {m}) + [m]
  }
}
