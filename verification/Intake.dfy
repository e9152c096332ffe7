/** What the book holds after every run, told from the commands alone: who lives, which quote rests, what is cached. */
module Intake {
  import opened Bytes
  import opened Results
  import opened Matching
  import opened Book

  // ---- which RFQs live ----

  /** An RFQ the book takes: large enough, with an address and a positive limit. */
  predicate Admissible(cfg: Config, c: Command) {
    c.Add? && c.amount >= cfg.minBlock && c.xrpl != [] && c.limit.Some? && c.limit.value > 0
  }

  /** Command k brought in the RFQ id: it was admissible and the book held none. */
  predicate AddedAt(cfg: Config, commands: seq<Command>, k: int, id: Hash) {
    0 <= k < |commands| && Admissible(cfg, commands[k]) && commands[k].id == id && id !in Run(cfg, commands[..k]).rfqs
  }

  /** A sweep at the time of c removes what was added by the command added. */
  predicate Sweeps(c: Command, added: Command)
    requires added.Add?
  {
    c.Sweep? && c.now > added.now + Seconds(added.ttlSec)
  }

  /** The RFQ came with command k and no sweep since was past its lifetime. */
  ghost predicate Lives(cfg: Config, commands: seq<Command>, id: Hash, k: int) {
    AddedAt(cfg, commands, k, id) && forall j :: k < j < |commands| ==> !Sweeps(commands[j], commands[k])
  }

  /** The terms a command asks for. */
  predicate AskedBy(c: Command, t: Terms)
    requires c.Add? && c.limit.Some?
  {
    t.id == c.id && t.taker == c.taker && t.amount == c.amount && t.limit == c.limit.value && t.xrpl == c.xrpl &&
    t.receivedAt == c.now && t.windowEndsAt == c.now + Seconds(c.windowSec) && t.expiresAt == c.now + Seconds(c.ttlSec)
  }

  lemma LivesBefore(cfg: Config, commands: seq<Command>, id: Hash, k: int)
    requires 0 <= k < |commands| - 1
    ensures var last := |commands| - 1;
            Lives(cfg, commands, id, k) <==>
            Lives(cfg, commands[..last], id, k) && !Sweeps(commands[last], commands[k])
  {
    assert commands[..|commands| - 1][..k] == commands[..k];
  }

  lemma AddIsAsked(cfg: Config, b: BookState, c: Command)
    requires Admissible(cfg, c) && c.id !in b.rfqs
    ensures c.id in Apply(cfg, b, c).rfqs && AskedBy(c, Apply(cfg, b, c).rfqs[c.id].terms)
    ensures Apply(cfg, b, c).rfqs[c.id].cached.None? && QuotesOn(Apply(cfg, b, c), c.id) == map[]
  {
  }

  /** An RFQ keeps its terms in the book until a sweep after its lifetime. */
  lemma TermsStay(cfg: Config, b: BookState, c: Command, id: Hash)
    requires id in b.rfqs
    ensures var after := Apply(cfg, b, c);
            if c.Sweep? && c.now > b.rfqs[id].terms.expiresAt then id !in after.rfqs
            else id in after.rfqs && after.rfqs[id].terms == b.rfqs[id].terms
  {
  }

  lemma {:induction false} LivingIsHeld(cfg: Config, commands: seq<Command>, id: Hash, k: int)
    requires Lives(cfg, commands, id, k)
    ensures id in Run(cfg, commands).rfqs && AskedBy(commands[k], Run(cfg, commands).rfqs[id].terms)
  {
    var last := |commands| - 1;
    if k == last {
      AddIsAsked(cfg, Run(cfg, commands[..last]), commands[last]);
    } else {
      LivesBefore(cfg, commands, id, k);
      LivingIsHeld(cfg, commands[..last], id, k);
      TermsStay(cfg, Run(cfg, commands[..last]), commands[last], id);
    }
  }

  lemma {:induction false} HeldIsLiving(cfg: Config, commands: seq<Command>, id: Hash) returns (k: int)
    requires id in Run(cfg, commands).rfqs
    ensures Lives(cfg, commands, id, k)
  {
    var last := |commands| - 1;
    var b := Run(cfg, commands[..last]);
    if id in b.rfqs {
      k := HeldIsLiving(cfg, commands[..last], id);
      LivingIsHeld(cfg, commands[..last], id, k);
      TermsStay(cfg, b, commands[last], id);
      LivesBefore(cfg, commands, id, k);
    } else {
      k := last;
    }
  }

  /**
   After every run the book holds an RFQ exactly when a command brought it in and no sweep since came
   after its lifetime, and then with the terms that command asked for.
   */
  lemma RfqLivesExactly(cfg: Config, commands: seq<Command>, id: Hash)
    ensures id in Run(cfg, commands).rfqs <==> exists k :: Lives(cfg, commands, id, k)
    ensures forall k :: Lives(cfg, commands, id, k) ==> AskedBy(commands[k], Run(cfg, commands).rfqs[id].terms)
  {
    forall k | Lives(cfg, commands, id, k)
      ensures id in Run(cfg, commands).rfqs && AskedBy(commands[k], Run(cfg, commands).rfqs[id].terms)
    {
      LivingIsHeld(cfg, commands, id, k);
    }
    if id in Run(cfg, commands).rfqs {
      var k := HeldIsLiving(cfg, commands, id);
    }
  }

  // ---- which quote rests ----

  /** Command j is the maker's quote on the RFQ. */
  predicate QuotedAt(commands: seq<Command>, j: int, id: Hash, m: Address) {
    0 <= j < |commands| && commands[j].Submit? && commands[j].rfqId == id && commands[j].maker == m
  }

  /** Of the maker's quotes since command k, the j-th has the highest nonce, and is the first that has it. */
  ghost predicate Highest(commands: seq<Command>, k: int, id: Hash, m: Address, j: int) {
    k < j && QuotedAt(commands, j, id, m) &&
    forall i :: k < i && QuotedAt(commands, i, id, m) ==>
      commands[i].nonce < commands[j].nonce || (commands[i].nonce == commands[j].nonce && j <= i)
  }

  predicate OfferedBy(c: Command, q: Quote)
    requires c.Submit?
  {
    q.rfqId == c.rfqId && q.maker == c.maker && q.price == c.price && q.size == c.size && q.nonce == c.nonce &&
    q.receivedAt == c.now
  }

  /** A submission on a held RFQ replaces the maker's quote exactly when its nonce is higher; nothing else moves it. */
  lemma QuoteStep(cfg: Config, b: BookState, c: Command, id: Hash, m: Address)
    requires id in b.quotes && (c.Add? ==> c.id in b.rfqs || c.id != id) && (c.Sweep? ==> id !in Expired(b, c.now))
    ensures var after := Apply(cfg, b, c);
            if c.Submit? && c.rfqId == id && c.maker == m && (m !in b.quotes[id] || c.nonce > b.quotes[id][m].nonce)
            then Rests(after, id, m) && OfferedBy(c, after.quotes[id][m])
            else (Rests(after, id, m) <==> Rests(b, id, m)) &&
                 (Rests(b, id, m) ==> after.quotes[id][m] == b.quotes[id][m])
  {
  }

  /** The step from the book before the last command, on an RFQ that lives through it. */
  lemma LivingStep(cfg: Config, commands: seq<Command>, id: Hash, m: Address, k: int)
    requires Lives(cfg, commands, id, k) && k < |commands| - 1
    ensures var last := |commands| - 1;
            var b, after, c := Run(cfg, commands[..last]), Run(cfg, commands), commands[last];
            Lives(cfg, commands[..last], id, k) && id in b.quotes &&
            if QuotedAt(commands, last, id, m) && (m !in b.quotes[id] || c.nonce > b.quotes[id][m].nonce)
            then Rests(after, id, m) && OfferedBy(c, after.quotes[id][m])
            else (Rests(after, id, m) <==> Rests(b, id, m)) &&
                 (Rests(b, id, m) ==> after.quotes[id][m] == b.quotes[id][m])
  {
    var last := |commands| - 1;
    LivesBefore(cfg, commands, id, k);
    LivingIsHeld(cfg, commands[..last], id, k);
    RunIsWellFiled(cfg, commands[..last]);
    QuoteStep(cfg, Run(cfg, commands[..last]), commands[last], id, m);
  }

  lemma QuotedBefore(commands: seq<Command>, j: int, id: Hash, m: Address)
    requires commands != [] && j < |commands| - 1
    ensures QuotedAt(commands[..|commands| - 1], j, id, m) <==> QuotedAt(commands, j, id, m)
  {
  }

  lemma HighestGrows(commands: seq<Command>, k: int, id: Hash, m: Address, j: int)
    requires 0 <= k < |commands| - 1 && j < |commands| - 1
    ensures var last := |commands| - 1;
            Highest(commands, k, id, m, j) <==>
            Highest(commands[..last], k, id, m, j) &&
            (QuotedAt(commands, last, id, m) ==> commands[last].nonce <= commands[j].nonce)
  {
    forall i | i < |commands| - 1 {
      QuotedBefore(commands, i, id, m);
    }
  }

  /** Nothing of the maker's rests, so he has quoted nothing since command k. */
  lemma {:induction false} NothingQuoted(cfg: Config, commands: seq<Command>, id: Hash, m: Address, k: int)
    requires Lives(cfg, commands, id, k) && !Rests(Run(cfg, commands), id, m)
    ensures forall i :: k < i ==> !QuotedAt(commands, i, id, m)
  {
    var last := |commands| - 1;
    if k < last {
      LivingStep(cfg, commands, id, m, k);
      NothingQuoted(cfg, commands[..last], id, m, k);
      forall i | k < i < last
        ensures !QuotedAt(commands, i, id, m)
      {
        QuotedBefore(commands, i, id, m);
      }
    }
  }

  lemma {:induction false} RestingIsHighest(cfg: Config, commands: seq<Command>, id: Hash, m: Address, k: int) returns (j: int)
    requires Lives(cfg, commands, id, k) && Rests(Run(cfg, commands), id, m)
    ensures Highest(commands, k, id, m, j) && OfferedBy(commands[j], Run(cfg, commands).quotes[id][m])
  {
    var last := |commands| - 1;
    if k == last {
      AddIsAsked(cfg, Run(cfg, commands[..last]), commands[last]);
      assert false;
    } else {
      var before := commands[..last];
      LivingStep(cfg, commands, id, m, k);
      if Rests(Run(cfg, before), id, m) {
        j := RestingIsHighest(cfg, before, id, m, k);
        HighestGrows(commands, k, id, m, j);
        if QuotedAt(commands, last, id, m) && commands[last].nonce > commands[j].nonce {
          NewestIsHighest(commands, k, id, m, j);
          j := last;
        }
      } else {
        NothingQuoted(cfg, before, id, m, k);
        FirstIsHighest(commands, before, k, id, m);
        j := last;
      }
    }
  }

  lemma NewestIsHighest(commands: seq<Command>, k: int, id: Hash, m: Address, j: int)
    requires commands != [] && Highest(commands[..|commands| - 1], k, id, m, j)
    requires QuotedAt(commands, |commands| - 1, id, m) && commands[|commands| - 1].nonce > commands[j].nonce
    ensures Highest(commands, k, id, m, |commands| - 1)
  {
    forall i | i < |commands| - 1 {
      QuotedBefore(commands, i, id, m);
    }
  }

  lemma FirstIsHighest(commands: seq<Command>, before: seq<Command>, k: int, id: Hash, m: Address)
    requires 0 <= k < |commands| - 1 && before == commands[..|commands| - 1] && QuotedAt(commands, |commands| - 1, id, m)
    requires forall i :: k < i ==> !QuotedAt(before, i, id, m)
    ensures Highest(commands, k, id, m, |commands| - 1)
  {
    forall i | i < |commands| - 1 {
      QuotedBefore(commands, i, id, m);
    }
  }

  lemma HighestIsOne(commands: seq<Command>, k: int, id: Hash, m: Address, i: int, j: int)
    requires Highest(commands, k, id, m, i) && Highest(commands, k, id, m, j)
    ensures i == j
  {
  }

  /**
   After every run a maker's quote rests on a held RFQ exactly when he has sent one since it was added,
   and it is the first of those with the highest nonce.
   */
  lemma HighestNonceRests(cfg: Config, commands: seq<Command>, id: Hash, m: Address, k: int)
    requires Lives(cfg, commands, id, k)
    ensures Rests(Run(cfg, commands), id, m) <==> exists j :: k < j && QuotedAt(commands, j, id, m)
    ensures forall j :: Highest(commands, k, id, m, j) ==>
              Rests(Run(cfg, commands), id, m) && OfferedBy(commands[j], Run(cfg, commands).quotes[id][m])
  {
    if Rests(Run(cfg, commands), id, m) {
      var at := RestingIsHighest(cfg, commands, id, m, k);
      forall j | Highest(commands, k, id, m, j)
        ensures j == at
      {
        HighestIsOne(commands, k, id, m, at, j);
      }
    } else {
      NothingQuoted(cfg, commands, id, m, k);
    }
  }

  // ---- what is cached ----

  predicate CachedAt(commands: seq<Command>, j: int, id: Hash) {
    0 <= j < |commands| && commands[j].Cache? && commands[j].id == id
  }

  /** Since command k, the j-th was the last to cache an outcome on the RFQ. */
  ghost predicate LastCached(commands: seq<Command>, k: int, id: Hash, j: int) {
    k < j && CachedAt(commands, j, id) && forall i :: j < i ==> !CachedAt(commands, i, id)
  }

  ghost predicate NoneCached(commands: seq<Command>, k: int, id: Hash) {
    forall i :: k < i ==> !CachedAt(commands, i, id)
  }

  lemma CachedStep(cfg: Config, b: BookState, c: Command, id: Hash)
    requires id in b.rfqs && id in Apply(cfg, b, c).rfqs
    ensures Apply(cfg, b, c).rfqs[id].cached == if c.Cache? && c.id == id then Some(c.outcome) else b.rfqs[id].cached
  {
  }

  lemma CachedGrows(commands: seq<Command>, k: int, id: Hash, j: int)
    requires 0 <= k < |commands| - 1
    ensures var last := |commands| - 1;
            (NoneCached(commands, k, id) <==> NoneCached(commands[..last], k, id) && !CachedAt(commands, last, id)) &&
            (LastCached(commands, k, id, j) <==>
             if CachedAt(commands, last, id) then j == last else LastCached(commands[..last], k, id, j))
  {
    var last := |commands| - 1;
    forall i | i < last
      ensures CachedAt(commands[..last], i, id) <==> CachedAt(commands, i, id)
    {
    }
  }

  /** An RFQ holds the outcome last cached on it since it was added, and none if none was. */
  lemma {:induction false} LastOutcomeIsHeld(cfg: Config, commands: seq<Command>, id: Hash, k: int, j: int)
    requires Lives(cfg, commands, id, k)
    ensures NoneCached(commands, k, id) ==> CachedFor(Run(cfg, commands), id) == None
    ensures LastCached(commands, k, id, j) ==> CachedFor(Run(cfg, commands), id) == Some(commands[j].outcome)
  {
    var last := |commands| - 1;
    LivingIsHeld(cfg, commands, id, k);
    if k == last {
      AddIsAsked(cfg, Run(cfg, commands[..last]), commands[last]);
    } else {
      LivesBefore(cfg, commands, id, k);
      LivingIsHeld(cfg, commands[..last], id, k);
      LastOutcomeIsHeld(cfg, commands[..last], id, k, j);
      CachedStep(cfg, Run(cfg, commands[..last]), commands[last], id);
      CachedGrows(commands, k, id, j);
    }
  }
}
