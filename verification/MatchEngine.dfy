/** One RFQ_MATCH from end to end: cache check, book snapshot, rule, signature, cache (match.go, Match*). */
module MatchEngine {
  import opened Bytes
  import opened Results
  import opened Abi
  import opened Matching
  import opened Book
  import Signing
  import Text

  /** What a running enclave fixes: policy, escrow, chain, and the uninterpreted cryptography. */
  datatype Env = Env(cfg: Config, escrow: Address, chainId: Uint64, keccak: Signing.Keccak, recover: Signing.Recovery)

  function MessageFor(env: Env, mi: Instruction): seq<Byte> {
    Signing.MatchMessage(env.keccak(EncodeInstruction(mi)), env.chainId)
  }

  /** The tail of matchWithSignFunc: a MATCHED outcome is signed from its own printed fields. */
  function Finish(env: Env, o: Outcome, reply: Option<seq<Byte>>): Result<Outcome, MatchError> {
    match o
    case NoMatch(_) => Ok(o)
    case Matched(_, wire, _, _, _) =>
      match WireToInstruction(wire)
      case None => Err(SignFailed(Signing.NilNumber))
      case Some(mi) =>
        match Signing.Assemble(env.keccak, env.recover, mi, env.chainId, reply)
        case Err(e) => Err(SignFailed(e))
        case Ok(m) =>
          Ok(o.(signed := Some(m), abiEncoded := Text.Hex(m.abiEncoded), teeSignature := Text.Hex(m.signature)))
  }

  function PortReply(env: Env, o: Outcome, port: Signing.SignPort): Option<seq<Byte>> {
    if o.Matched? && WireToInstruction(o.wire).Some?
    then port(MessageFor(env, WireToInstruction(o.wire).value))
    else None
  }

  /** What a match that finds no cached outcome answers, given the quotes in the order it sees them. */
  function Answer(env: Env, s: Setting, quotes: seq<Quote>, port: Signing.SignPort): Result<Outcome, MatchError> {
    if s.now < s.terms.windowEndsAt then Err(WindowOpen)
    else
      match Decide(s, quotes)
      case Err(e) => Err(e)
      case Ok(d) =>
        var o := OutcomeOf(env.keccak, s, d);
        Finish(env, o, PortReply(env, o, port))
  }

  function SettingFor(env: Env, terms: Terms, snap: ChainSnapshot, now: int): Setting {
    Setting(env.cfg, env.escrow, terms, snap, now)
  }

  /** r is the answer for these quotes, in some order of theirs. */
  ghost predicate GivesAnswer(env: Env, s: Setting, byMaker: map<Address, Quote>, port: Signing.SignPort,
                              r: Result<Outcome, MatchError>)
  {
    exists order :: IsOrder(order, byMaker.Keys) && r == Answer(env, s, InOrder(byMaker, order), port)
  }

  /** MatchWithSigner, alone: a cached outcome is final, an error leaves the book as it was. */
  method MatchWithSigner(book: SealedBook, env: Env, port: Signing.SignPort, id: Hash, snap: ChainSnapshot, now: int)
    returns (r: Result<Outcome, MatchError>)
    modifies book
    ensures r.Err? ==> book.State() == old(book.State())
    ensures r.Ok? ==> book.State() == CacheOutcome(old(book.State()), id, r.value) &&
                      CachedFor(book.State(), id) == Some(r.value)
    ensures old(CachedFor(book.State(), id)).Some? ==>
              r == Ok(old(CachedFor(book.State(), id)).value) && book.State() == old(book.State())
    ensures id !in old(book.rfqs) ==> r == Err(RfqUnknown)
    ensures id in old(book.rfqs) && old(CachedFor(book.State(), id)).None? ==>
              (r == Err(WindowOpen) <==> now < old(book.rfqs[id].terms.windowEndsAt))
    ensures id in old(book.rfqs) && old(CachedFor(book.State(), id)).None? ==>
              GivesAnswer(env, SettingFor(env, old(book.rfqs[id].terms), snap, now), QuotesOn(old(book.State()), id), port, r)
  {
    var cached := book.CachedOutcome(id);
    if cached.Some? {
      assert book.rfqs == book.rfqs[id := book.rfqs[id].(cached := Some(cached.value))];
      return Ok(cached.value);
    }
    var taken := book.SnapshotForMatch(id);
    if taken.None? {
      return Err(RfqUnknown);
    }
    var (rfq, quotes) := taken.value;
    var s := SettingFor(env, rfq.terms, snap, now);
    if now < rfq.terms.windowEndsAt {
      return Err(WindowOpen);
    }
    var decided := MatchCore(env.keccak, s, quotes);
    if decided.Err? {
      return Err(decided.error);
    }
    var outcome := decided.value;
    if outcome.Matched? {
      var mi := WireToInstruction(outcome.wire);
      if mi.None? {
        return Err(SignFailed(Signing.NilNumber));
      }
      var signed := Signing.SignWithFunc(env.keccak, env.recover, mi.value, env.chainId, port);
      if signed.Err? {
        return Err(SignFailed(signed.error));
      }
      outcome := outcome.(signed := Some(signed.value), abiEncoded := Text.Hex(signed.value.abiEncoded),
                          teeSignature := Text.Hex(signed.value.signature));
    }
    book.MarkMatched(id, outcome);
    return Ok(outcome);
  }

  // ---- what a finished outcome carries ----

  /** o is the signed, printed form of the decision d under s. */
  ghost predicate Carries(env: Env, s: Setting, d: Decision, o: Outcome) {
    match d
    case Nothing(reasons) => o == NoMatch(reasons)
    case Chosen(winner, reasons) =>
      var mi := InstructionFor(s, winner);
      o.Matched? && o.reasons == reasons && o.wire == InstructionToWire(env.keccak, mi) &&
      o.signed.Some? && o.signed.value.instruction == mi && o.signed.value.abiEncoded == EncodeInstruction(mi) &&
      o.abiEncoded == Text.Hex(EncodeInstruction(mi)) &&
      |o.signed.value.signature| == 65 && o.teeSignature == Text.Hex(o.signed.value.signature) &&
      Signing.VerifyMatch(env.keccak, env.recover, EncodeInstruction(mi), o.signed.value.signature, env.chainId,
                          o.signed.value.signer).Ok?
  }

  /** What is chosen is what is signed. */
  lemma FinishedCarriesDecision(env: Env, s: Setting, d: Decision, reply: Option<seq<Byte>>)
    ensures var r := Finish(env, OutcomeOf(env.keccak, s, d), reply);
            r.Ok? ==> Carries(env, s, d, r.value)
  {
    if d.Chosen? {
      var mi := InstructionFor(s, d.winner);
      WireRoundTrip(env.keccak, mi);
      var r := Signing.Assemble(env.keccak, env.recover, mi, env.chainId, reply);
      if r.Ok? {
        Signing.ClientAcceptsExactlyTheSigner(env.keccak, env.recover, mi, env.chainId, reply, r.value.signer);
      }
    }
  }

  /**
   The bytes a MATCHED outcome hands to lock() decode to a quote that meets all six conditions and
   that none which does outranks, exactly when the price fits the uint256 it is packed into.
   */
  lemma SignedBytesNameTheBestQuote(env: Env, s: Setting, quotes: seq<Quote>, port: Signing.SignPort)
    requires |s.terms.xrpl| < TWO64
    requires Answer(env, s, quotes, port).Ok? && Answer(env, s, quotes, port).value.Matched?
    ensures var o := Answer(env, s, quotes, port).value;
            exists w :: s.snap.mid.Some? && Deserves(s, quotes, w) && Pays(InstructionFor(s, w), s, w) &&
              (0 <= w.price < TWO256 <==>
               DecodeInstruction(Text.FromHex(o.abiEncoded)) == Some(InstructionFor(s, w)))
  {
    var w := Decide(s, quotes).value.winner;
    AnswerCarries(env, s, quotes, port);
    DecisionMeans(s, quotes);
    PaysItsWinner(s, w);
    BytesNameTheirInstruction(InstructionFor(s, w), s.terms.amount);
    assert Deserves(s, quotes, w);
  }

  /** An answer carries its decision, and a match its winner. */
  lemma AnswerCarries(env: Env, s: Setting, quotes: seq<Quote>, port: Signing.SignPort)
    requires Answer(env, s, quotes, port).Ok?
    ensures s.now >= s.terms.windowEndsAt && Decide(s, quotes).Ok?
    ensures Carries(env, s, Decide(s, quotes).value, Answer(env, s, quotes, port).value)
  {
    var o := OutcomeOf(env.keccak, s, Decide(s, quotes).value);
    FinishedCarriesDecision(env, s, Decide(s, quotes).value, PortReply(env, o, port));
  }

  /** Once the window is closed and the price fresh, a port with a genuine key gives an answer; before, none can. */
  lemma GenuinePortAnswers(env: Env, s: Setting, quotes: seq<Quote>, key: Signing.Key, signer: Address)
    requires Signing.KeyOf(key, env.recover, signer)
    ensures var r := Answer(env, s, quotes, Signing.HashingPort(env.keccak, key));
            (r.Ok? <==> s.terms.windowEndsAt <= s.now && s.snap.mid.Some? && s.snap.mid.value > 0 &&
                        s.snap.midAge <= 60_000_000_000) &&
            (r == Err(WindowOpen) <==> s.now < s.terms.windowEndsAt)
  {
    DecisionMeans(s, quotes);
    if s.now >= s.terms.windowEndsAt && Decide(s, quotes).Ok? {
      GenuineKeyFinishes(env, s, Decide(s, quotes).value, key, signer);
    }
  }

  lemma GenuineKeyFinishes(env: Env, s: Setting, d: Decision, key: Signing.Key, signer: Address)
    requires Signing.KeyOf(key, env.recover, signer)
    ensures var o := OutcomeOf(env.keccak, s, d);
            Finish(env, o, PortReply(env, o, Signing.HashingPort(env.keccak, key))).Ok?
  {
    if d.Chosen? {
      var mi := InstructionFor(s, d.winner);
      WireRoundTrip(env.keccak, mi);
      Signing.PathsAgree(env.keccak, env.recover, mi, env.chainId, key);
      Signing.GenuineKeySigns(env.keccak, env.recover, mi, env.chainId, key, signer);
    }
  }

  lemma BytesNameTheirInstruction(mi: Instruction, amount: Uint64)
    requires mi.amount == amount && |mi.xrpl| < TWO64
    ensures DecodeInstruction(Text.FromHex(Text.Hex(EncodeInstruction(mi)))) == Some(mi) <==> 0 <= mi.price < TWO256
  {
    Text.HexRoundTrip(EncodeInstruction(mi));
    AmountFits(amount);
    RoundTrip(mi);
  }

  lemma AmountFits(amount: Uint64)
    ensures amount < TWO256
  {
  }
}
