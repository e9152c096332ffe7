/** The enclave's command handlers after decryption and JSON decoding (fcewire/handler.go). */
module Handler {
  import opened Bytes
  import opened Results
  import opened Text
  import opened Matching
  import opened Book
  import opened MatchEngine
  import opened QuoteAuth
  import Alone
  import Cache = ChainCache
  import Signing

  datatype ErrorCode =
    | PadError | DecodeError | SideError | AuthError | MinSizeError | RfqUnknownError | StaleNonceError
    | WindowOpenError | PriceStaleError | SignError

  // ---- padding ----

  const SPACE: Byte := 0x20

  function TrimRight(b: seq<Byte>): seq<Byte> {
    if b != [] && b[|b| - 1] == SPACE then TrimRight(b[..|b| - 1]) else b
  }

  function Depad(b: seq<Byte>, size: nat): Result<seq<Byte>, ErrorCode> {
    if |b| != size then Err(PadError) else Ok(TrimRight(b))
  }

  function Pad(b: seq<Byte>, size: nat): seq<Byte>
    requires |b| <= size
  {
    b + seq(size - |b|, _ => SPACE)
  }

  lemma {:induction false} TrimSpaces(b: seq<Byte>, n: nat)
    ensures TrimRight(b + seq(n, _ => SPACE)) == TrimRight(b)
  {
    if n == 0 {
      assert b + seq(n, _ => SPACE) == b;
    } else {
      TrimSpaces(b, n - 1);
      assert (b + seq(n, _ => SPACE))[..|b| + n - 1] == b + seq(n - 1, _ => SPACE);
    }
  }

  lemma {:induction false} TrimShorter(b: seq<Byte>)
    ensures |TrimRight(b)| <= |b|
  {
    if b != [] {
      TrimShorter(b[..|b| - 1]);
    }
  }

  /** Padding comes off whole exactly when the message itself does not end in a space. */
  lemma DepadUndoesPad(b: seq<Byte>, size: nat)
    requires |b| <= size
    ensures Depad(Pad(b, size), size) == Ok(b) <==> b == [] || b[|b| - 1] != SPACE
  {
    TrimSpaces(b, size - |b|);
    if b != [] {
      TrimShorter(b[..|b| - 1]);
    }
  }

  // ---- field decoding ----

  predicate HasPrefix(s: string) {
    |s| >= 2 && s[0] == '0' && (s[1] == 'x' || s[1] == 'X')
  }

  predicate AllHex(s: string) {
    forall i | 0 <= i < |s| :: NibbleOf(s[i]).Some?
  }

  /** s without its prefix. */
  function Bare(s: string): string {
    if HasPrefix(s) then s[2..] else s
  }

  predicate IsHexAddress(s: string) {
    |Bare(s)| == 40 && AllHex(Bare(s))
  }

  /** decodeHex: the prefix is optional, a stray digit or an odd count is an error. */
  function DecodeHex(s: string): Option<seq<Byte>> {
    if |Bare(s)| % 2 == 1 || !AllHex(Bare(s)) then None else Some(HexBytes(Bare(s)))
  }

  function ParseUint64(s: string): Option<Uint64> {
    match ParseInt(s)
    case None => None
    case Some(n) => if 0 <= n < TWO64 then Some(n) else None
  }

  datatype RfqMessage = RfqMessage(
    version: int, taker: string, side: string, amount: string, limit: string, xrpl: seq<Byte>)

  datatype QuoteMessage = QuoteMessage(
    version: int, rfqId: string, maker: string, price: string, size: string, nonce: string, sig: string)

  /** The fields of a QUOTE_SUBMIT and its signature; None where the handler answers with a decode error. */
  function DecodeQuote(m: QuoteMessage): Option<(QuoteFields, seq<Byte>)> {
    if m.version != 1 || |m.rfqId| != 66 || !IsHexAddress(m.maker) then None
    else
      match (ParseInt(m.price), ParseUint64(m.size), ParseUint64(m.nonce), DecodeHex(m.sig))
      case (Some(price), Some(size), Some(nonce), Some(sig)) =>
        if price <= 0 || |sig| != 65 then None
        else Some((QuoteFields(HexToHash(m.rfqId), HexToAddress(m.maker), price, size, nonce), sig))
      case _ => None
  }

  predicate Signs(env: Env, q: QuoteFields, sig: seq<Byte>) {
    |sig| == 65 &&
    env.recover(QuoteDigest(env.keccak, env.chainId, env.escrow, q), Signing.ShiftDown(sig)) == Some(q.maker)
  }

  /** The message decodes, and the signature it brings is its maker's over exactly its fields. */
  predicate Vouched(env: Env, m: QuoteMessage) {
    DecodeQuote(m).Some? && Signs(env, DecodeQuote(m).value.0, DecodeQuote(m).value.1)
  }

  /** What is wrong with an RFQ_SUBMIT before the book sees it. */
  function RfqFault(sender: Address, m: RfqMessage): Option<ErrorCode> {
    if m.version != 1 then Some(DecodeError)
    else if m.side != "SELL_FXRP" then Some(SideError)
    else if !IsHexAddress(m.taker) then Some(DecodeError)
    else if HexToAddress(m.taker) != sender then Some(AuthError)
    else if m.xrpl == [] || ParseUint64(m.amount).None? || ParseInt(m.limit).None? then Some(DecodeError)
    else None
  }

  // ---- what the fields of a message say ----

  /** A signature string decodes to exactly the bytes it spells, with or without a prefix. */
  lemma DecodeHexExactly(s: string, b: seq<Byte>)
    ensures DecodeHex(s) == Some(b) <==> Spells(Bare(s), b)
  {
    if DecodeHex(s).Some? {
      HexSpells(Bare(s));
    }
    if Spells(Bare(s), b) {
      SpelledIsHex(Bare(s), b);
      SpelledBytes(Bare(s), b);
    }
  }

  /** An address string is taken for exactly the address it spells. */
  lemma HexAddressExactly(s: string, a: Address)
    ensures IsHexAddress(s) && HexToAddress(s) == a <==> Spells(Bare(s), a)
  {
    DecodeHexExactly(s, HexBytes(Bare(s)));
    if IsHexAddress(s) {
      HexSpells(Bare(s));
      assert FromHex(s) == HexBytes(Bare(s));
    }
    if Spells(Bare(s), a) {
      SpelledIsHex(Bare(s), a);
      SpelledBytes(Bare(s), a);
    }
  }

  /** A quote message is taken for q exactly when each of its strings writes or spells that field. */
  lemma DecodesExactly(m: QuoteMessage, q: QuoteFields, sig: seq<Byte>)
    ensures DecodeQuote(m) == Some((q, sig)) <==>
            m.version == 1 && |m.rfqId| == 66 && HexToHash(m.rfqId) == q.rfqId && Spells(Bare(m.maker), q.maker) &&
            Writes(m.price, q.price) && q.price > 0 && Writes(m.size, q.size) && Writes(m.nonce, q.nonce) &&
            Spells(Bare(m.sig), sig) && |sig| == 65
  {
    HexAddressExactly(m.maker, q.maker);
    ParseIntExactly(m.price, q.price);
    ParseIntExactly(m.size, q.size);
    ParseIntExactly(m.nonce, q.nonce);
    DecodeHexExactly(m.sig, sig);
  }

  /** The digits an id is read from: an odd number of them gets a zero in front. */
  function Paired(s: string): string {
    if |Bare(s)| % 2 == 1 then "0" + Bare(s) else Bare(s)
  }

  /** An id is the last 32 bytes its digits spell, up to the first stray pair, with zeros in front of fewer. */
  lemma SpelledId(s: string, good: string, rest: string, b: seq<Byte>, h: Hash)
    requires Paired(s) == good + rest && Spells(good, b)
    requires |rest| < 2 || NibbleOf(rest[0]).None? || NibbleOf(rest[1]).None?
    ensures HexToHash(s) == h <==>
            if |b| >= 32 then h == b[|b| - 32..] else h[32 - |b|..] == b && forall i | 0 <= i < 32 - |b| :: h[i] == 0
  {
    ReadsUpToStray(good, b, rest);
    assert FromHex(s) == b;
    if |b| < 32 && h[32 - |b|..] == b && forall i | 0 <= i < 32 - |b| :: h[i] == 0 {
      assert h == h[..32 - |b|] + h[32 - |b|..];
      assert h[..32 - |b|] == Zeros(32 - |b|);
    }
  }

  /** The message a maker's client prints for q and its signature. */
  function PrintQuote(keccak: Signing.Keccak, q: QuoteFields, sig: seq<Byte>): QuoteMessage {
    QuoteMessage(1, Hex(q.rfqId), AddressHex(keccak, q.maker), PrintInt(q.price), PrintInt(q.size), PrintInt(q.nonce), Hex(sig))
  }

  lemma SpelledIsHex(s: string, b: seq<Byte>)
    requires Spells(s, b)
    ensures AllHex(s)
  {
    forall i | 0 <= i < |s|
      ensures NibbleOf(s[i]).Some?
    {
      assert s[2 * (i / 2)] == s[i] || s[2 * (i / 2) + 1] == s[i];
    }
  }

  lemma PrintedHexDecodes(b: seq<Byte>)
    ensures DecodeHex(Hex(b)) == Some(b) && |Hex(b)| == 2 + 2 * |b|
  {
    DigitsSpell(b);
    HexDigitsLength(b);
    SpelledIsHex(HexDigits(b), b);
    SpelledBytes(HexDigits(b), b);
    assert Hex(b)[2..] == HexDigits(b);
  }

  lemma PrintedAddressIsHex(keccak: Signing.Keccak, a: Address)
    ensures IsHexAddress(AddressHex(keccak, a)) && HexToAddress(AddressHex(keccak, a)) == a
  {
    AddressRoundTrip(keccak, a);
    AddressSpells(keccak, a);
    SpelledIsHex(AddressHex(keccak, a)[2..], a);
  }

  /** Every quote the handler may take, printed, decodes to itself. */
  lemma PrintedQuoteDecodes(keccak: Signing.Keccak, q: QuoteFields, sig: seq<Byte>)
    requires q.price > 0 && |sig| == 65
    ensures DecodeQuote(PrintQuote(keccak, q, sig)) == Some((q, sig))
  {
    HashRoundTrip(q.rfqId);
    PrintedHexDecodes(q.rfqId);
    PrintedAddressIsHex(keccak, q.maker);
    ParsePrintInt(q.price);
    ParsePrintInt(q.size);
    ParsePrintInt(q.nonce);
    PrintedHexDecodes(sig);
  }

  /** The RFQ message is version 1, sells FXRP, is its sender's own, and has an XRPL address and numbers. */
  ghost predicate SoundRfq(sender: Address, m: RfqMessage) {
    m.version == 1 && m.side == "SELL_FXRP" && Spells(Bare(m.taker), sender) && m.xrpl != [] &&
    ParseInt(m.amount).Some? && 0 <= ParseInt(m.amount).value < 0x1_0000_0000_0000_0000 && ParseInt(m.limit).Some?
  }

  lemma SoundHasNoFault(sender: Address, m: RfqMessage)
    ensures RfqFault(sender, m).None? <==> SoundRfq(sender, m)
    ensures SoundRfq(sender, m) ==> ParseUint64(m.amount) == ParseInt(m.amount)
  {
    HexAddressExactly(m.taker, sender);
  }

  /** The message a taker's client prints is sound when he sends it himself. */
  lemma PrintedRfqIsSound(keccak: Signing.Keccak, sender: Address, amount: Uint64, limit: int, xrpl: seq<Byte>)
    requires xrpl != []
    ensures var m := RfqMessage(1, AddressHex(keccak, sender), "SELL_FXRP", PrintInt(amount), PrintInt(limit), xrpl);
            SoundRfq(sender, m) && ParseInt(m.amount) == Some(amount) && ParseInt(m.limit) == Some(limit)
  {
    PrintedAddressIsHex(keccak, sender);
    HexAddressExactly(AddressHex(keccak, sender), sender);
    ParsePrintInt(amount);
    ParsePrintInt(limit);
  }

  // ---- what a submission does to the book, on values ----

  function SubmitRfq(env: Env, b: BookState, id: Hash, sender: Address, m: RfqMessage, now: int, windowSec: int, ttlSec: int)
    : (BookState, Result<int, ErrorCode>)
  {
    if RfqFault(sender, m).Some? then (b, Err(RfqFault(sender, m).value))
    else
      var (after, r) := AddRfq(b, env.cfg, id, sender, ParseUint64(m.amount).value, ParseInt(m.limit), m.xrpl, now,
                               windowSec, ttlSec);
      match r
      case Ok(rfq) => (after, Ok(rfq.terms.windowEndsAt))
      case Err(e) => (b, Err(if e == BelowMinBlock then MinSizeError else DecodeError))
  }

  function SubmitQuote(env: Env, b: BookState, m: QuoteMessage, now: int): (BookState, Result<bool, ErrorCode>) {
    match DecodeQuote(m)
    case None => (b, Err(DecodeError))
    case Some((q, sig)) =>
      if !Signs(env, q, sig) then (b, Err(AuthError))
      else
        var (after, r) := Upsert(b, q.rfqId, q.maker, q.price, q.size, q.nonce, now);
        match r
        case Ok(replaced) => (after, Ok(replaced))
        case Err(e) => (b, Err(if e == UnknownRfq then RfqUnknownError else StaleNonceError))
  }

  /** Which refusal an RFQ message meets. */
  lemma RfqRefusals(env: Env, b: BookState, id: Hash, sender: Address, m: RfqMessage, now: int, windowSec: int, ttlSec: int)
    ensures var (after, r) := SubmitRfq(env, b, id, sender, m, now, windowSec, ttlSec);
            (r.Err? ==> after == b && r.error in {SideError, AuthError, MinSizeError, DecodeError}) &&
            (r == Err(SideError) <==> m.version == 1 && m.side != "SELL_FXRP") &&
            (r == Err(AuthError) <==>
             m.version == 1 && m.side == "SELL_FXRP" && exists a: Address :: a != sender && Spells(Bare(m.taker), a)) &&
            (r == Err(MinSizeError) <==> SoundRfq(sender, m) && ParseInt(m.amount).value < env.cfg.minBlock)
  {
    SoundHasNoFault(sender, m);
    HexAddressExactly(m.taker, HexToAddress(m.taker));
    forall a: Address | Spells(Bare(m.taker), a)
      ensures IsHexAddress(m.taker) && HexToAddress(m.taker) == a
    {
      HexAddressExactly(m.taker, a);
    }
  }

  /** Which refusal a quote message meets. */
  lemma QuoteRefusals(env: Env, b: BookState, m: QuoteMessage, now: int)
    ensures var (after, r) := SubmitQuote(env, b, m, now);
            (r.Err? ==> after == b) &&
            (r == Err(DecodeError) <==> DecodeQuote(m).None?) &&
            (r == Err(AuthError) <==> DecodeQuote(m).Some? && !Vouched(env, m)) &&
            (r == Err(RfqUnknownError) <==> Vouched(env, m) && DecodeQuote(m).value.0.rfqId !in b.quotes) &&
            (r == Err(StaleNonceError) <==>
             Vouched(env, m) && DecodeQuote(m).value.0.rfqId in b.quotes && !Fresh(b, DecodeQuote(m).value.0))
  {
    if DecodeQuote(m).Some? {
      UpsertRefusals(b, DecodeQuote(m).value.0, now);
    }
  }

  lemma UpsertRefusals(b: BookState, q: QuoteFields, now: int)
    ensures var r := Upsert(b, q.rfqId, q.maker, q.price, q.size, q.nonce, now).1;
            r == if q.rfqId !in b.quotes then Err(UnknownRfq) else if !Fresh(b, q) then Err(StaleNonce)
                 else Ok(q.maker in b.quotes[q.rfqId])
  {
  }

  /** The RFQ is there, and the maker has not sent this nonce or a later one. */
  predicate Fresh(b: BookState, q: QuoteFields) {
    q.rfqId in b.quotes && (q.maker in b.quotes[q.rfqId] ==> q.nonce > b.quotes[q.rfqId][q.maker].nonce)
  }

  // ---- every resting quote goes back to a message its maker signed ----

  /** A QUOTE_SUBMIT that was taken, and when. */
  datatype Admission = Admission(message: QuoteMessage, now: int)

  /** a is a vouched message that says exactly what q says. */
  predicate Backs(env: Env, a: Admission, q: Quote) {
    Vouched(env, a.message) && a.now == q.receivedAt && 0 < q.price &&
    DecodeQuote(a.message).value.0 == QuoteFields(q.rfqId, q.maker, q.price, q.size, q.nonce)
  }

  ghost predicate Backed(env: Env, log: seq<Admission>, q: Quote) {
    exists i :: 0 <= i < |log| && Backs(env, log[i], q)
  }

  ghost predicate Authentic(env: Env, log: seq<Admission>, b: BookState) {
    forall id, m | Rests(b, id, m) :: Backed(env, log, b.quotes[id][m])
  }

  lemma BackedLater(env: Env, log: seq<Admission>, a: Admission, q: Quote)
    requires Backed(env, log, q)
    ensures Backed(env, log + [a], q)
  {
    var i :| 0 <= i < |log| && Backs(env, log[i], q);
    assert Backs(env, (log + [a])[i], q);
  }

  lemma UpsertWritesOne(b: BookState, q: QuoteFields, now: int, id: Hash, m: Address)
    requires Rests(Upsert(b, q.rfqId, q.maker, q.price, q.size, q.nonce, now).0, id, m)
    ensures var after := Upsert(b, q.rfqId, q.maker, q.price, q.size, q.nonce, now).0;
            (Rests(b, id, m) && after.quotes[id][m] == b.quotes[id][m]) ||
            after.quotes[id][m] == Quote(q.rfqId, q.maker, q.price, q.size, q.nonce, now, after.nextSeq)
  {
  }

  /** A quote that is taken is backed by its message, and the others by theirs. */
  lemma SubmitKeepsAuthentic(env: Env, log: seq<Admission>, b: BookState, a: Admission)
    requires Authentic(env, log, b) && Vouched(env, a.message)
    ensures Authentic(env, log + [a], SubmitQuote(env, b, a.message, a.now).0)
  {
    var after, q := SubmitQuote(env, b, a.message, a.now).0, DecodeQuote(a.message).value.0;
    forall id, m | Rests(after, id, m)
      ensures Backed(env, log + [a], after.quotes[id][m])
    {
      if Rests(b, id, m) && after.quotes[id][m] == b.quotes[id][m] {
        BackedLater(env, log, a, b.quotes[id][m]);
      } else {
        UpsertWritesOne(b, q, a.now, id, m);
        assert Backs(env, (log + [a])[|log|], after.quotes[id][m]);
      }
    }
  }

  lemma OthersOnlyDrop(cfg: Config, b: BookState, c: Command, id: Hash, m: Address)
    requires !c.Submit? && Rests(Apply(cfg, b, c), id, m)
    ensures Rests(b, id, m) && Apply(cfg, b, c).quotes[id][m] == b.quotes[id][m]
  {
  }

  lemma OthersKeepAuthentic(env: Env, log: seq<Admission>, b: BookState, c: Command)
    requires Authentic(env, log, b) && !c.Submit?
    ensures Authentic(env, log, Apply(env.cfg, b, c))
  {
    forall id, m | Rests(Apply(env.cfg, b, c), id, m)
      ensures Backed(env, log, Apply(env.cfg, b, c).quotes[id][m])
    {
      OthersOnlyDrop(env.cfg, b, c, id, m);
    }
  }

  function MapMatchError(e: MatchError): ErrorCode {
    match e
    case RfqUnknown => RfqUnknownError
    case WindowOpen => WindowOpenError
    case PriceStale => PriceStaleError
    case SignFailed(_) => SignError
  }

  function MapAnswer(r: Result<Outcome, MatchError>): Result<Outcome, ErrorCode> {
    match r
    case Ok(o) => Ok(o)
    case Err(e) => Err(MapMatchError(e))
  }

  class Handler {
    const env: Env
    const windowSec: int
    const ttlSec: int
    const book: SealedBook
    const chain: Cache.ChainCache
    /** The quote messages taken so far. */
    ghost var admitted: seq<Admission>

    constructor (env: Env, windowSec: int, ttlSec: int, book: SealedBook, chain: Cache.ChainCache)
      ensures this.env == env && this.windowSec == windowSec && this.ttlSec == ttlSec
      ensures this.book == book && this.chain == chain && admitted == []
    {
      this.env, this.windowSec, this.ttlSec, this.book, this.chain := env, windowSec, ttlSec, book, chain;
      admitted := [];
    }

    /** handleRfqSubmit: the party is the envelope's sender, and the plaintext must agree. */
    method RfqSubmit(id: Hash, sender: Address, m: RfqMessage, now: int) returns (r: Result<int, ErrorCode>)
      modifies book, chain
      ensures (book.State(), r) == SubmitRfq(env, old(book.State()), id, sender, m, now, windowSec, ttlSec)
      ensures r.Ok? <==> SoundRfq(sender, m) && id !in old(book.rfqs) &&
                         ParseInt(m.amount).value >= env.cfg.minBlock && ParseInt(m.limit).value > 0
      ensures r.Ok? ==> id in book.rfqs && r.value == book.rfqs[id].terms.windowEndsAt &&
                        book.rfqs[id] == RFQ(Terms(id, sender, ParseInt(m.amount).value, ParseInt(m.limit).value, m.xrpl,
                                                   now, now + Seconds(windowSec), now + Seconds(ttlSec)), None) &&
                        id in book.quotes && book.quotes[id] == map[]
      ensures chain.trackedTakers == old(chain.trackedTakers) + if r.Ok? then {sender} else {}
      ensures chain.trackedMakers == old(chain.trackedMakers) && chain.State() == old(chain.State()) && chain.polls == old(chain.polls)
      ensures Authentic(env, admitted, old(book.State())) ==> Authentic(env, admitted, book.State())
    {
      ghost var before := book.State();
      SoundHasNoFault(sender, m);
      if m.version != 1 {
        return Err(DecodeError);
      }
      if m.side != "SELL_FXRP" {
        return Err(SideError);
      }
      if !IsHexAddress(m.taker) {
        return Err(DecodeError);
      }
      if HexToAddress(m.taker) != sender {
        return Err(AuthError);
      }
      if m.xrpl == [] {
        return Err(DecodeError);
      }
      var amount := ParseUint64(m.amount);
      if amount.None? {
        return Err(DecodeError);
      }
      var limit := ParseInt(m.limit);
      if limit.None? {
        return Err(DecodeError);
      }
      var added := book.AddRFQ(env.cfg, id, sender, amount.value, limit, m.xrpl, now, windowSec, ttlSec);
      if added.Err? {
        return Err(if added.error == BelowMinBlock then MinSizeError else DecodeError);
      }
      if Authentic(env, admitted, before) {
        OthersKeepAuthentic(env, admitted, before, Add(id, sender, amount.value, limit, m.xrpl, now, windowSec, ttlSec));
      }
      chain.TrackTaker(sender);
      return Ok(added.value.terms.windowEndsAt);
    }

    /** handleQuoteSubmit: nothing reaches the book without its maker's signature. */
    method QuoteSubmit(m: QuoteMessage, now: int) returns (r: Result<bool, ErrorCode>)
      modifies this, book, chain
      ensures (book.State(), r) == SubmitQuote(env, old(book.State()), m, now)
      ensures r.Ok? <==> Vouched(env, m) && Fresh(old(book.State()), DecodeQuote(m).value.0)
      ensures admitted == old(admitted) + if r.Ok? then [Admission(m, now)] else []
      ensures chain.trackedMakers == old(chain.trackedMakers) + if r.Ok? then {DecodeQuote(m).value.0.maker} else {}
      ensures chain.trackedTakers == old(chain.trackedTakers) && chain.State() == old(chain.State()) && chain.polls == old(chain.polls)
      ensures Authentic(env, old(admitted), old(book.State())) ==> Authentic(env, admitted, book.State())
    {
      ghost var before := book.State();
      var decoded := DecodeQuote(m);
      if decoded.None? {
        return Err(DecodeError);
      }
      var (q, sig) := decoded.value;
      var accepted := VerifyQuoteSignature(env.keccak, env.recover, env.chainId, env.escrow, q, sig);
      if !accepted {
        return Err(AuthError);
      }
      var replaced := book.UpsertQuote(q.rfqId, q.maker, q.price, q.size, q.nonce, now);
      if replaced.Err? {
        return Err(if replaced.error == UnknownRfq then RfqUnknownError else StaleNonceError);
      }
      if Authentic(env, admitted, before) {
        SubmitKeepsAuthentic(env, admitted, before, Admission(m, now));
      }
      admitted := admitted + [Admission(m, now)];
      chain.TrackMaker(q.maker);
      return Ok(replaced.value);
    }

    /**
     handleMatch, alone: participants, then the cached chain state of exactly these, then the match.
     Book and answer are those of the seven steps of one call.
     */
    method Match(id: Hash, port: Signing.SignPort, now: int) returns (r: Result<Outcome, ErrorCode>)
      modifies book
      ensures IsCall(env, old(book.State()), id, chain.State(), chain.staleMaxSec, now, port, r, book.State())
      ensures r.Err? ==> book.State() == old(book.State())
      ensures id in old(book.rfqs) && old(CachedFor(book.State(), id)).None? ==>
                (r == Err(WindowOpenError) <==> now < old(book.rfqs[id].terms.windowEndsAt))
    {
      ghost var b := book.State();
      var parties := book.Participants(id);
      if parties.None? {
        return Err(RfqUnknownError);
      }
      var (taker, makers) := parties.value;
      var snap := chain.Snapshot(taker, makers, now);
      ghost var told := Cache.SnapshotOf(chain.State(), chain.staleMaxSec, taker, QuotesOn(b, id).Keys, now);
      assert snap == told by {
        assert (set m: Address | m in makers) == QuotesOn(b, id).Keys;
      }
      var answer := MatchWithSigner(book, env, port, id, snap, now);
      r := MapAnswer(answer);
      AnsweredCall(env, b, id, chain.State(), chain.staleMaxSec, now, port, answer, book.State());
      CallMeans(env, b, id, chain.State(), chain.staleMaxSec, now, port, r, book.State());
    }
  }

  /** handleMatch from b to after, answering r. */
  ghost predicate IsCall(env: Env, b: BookState, id: Hash, cache: Cache.CacheState, staleMaxSec: int, now: int,
                         port: Signing.SignPort, r: Result<Outcome, ErrorCode>, after: BookState)
  {
    if id !in b.rfqs then r == Err(RfqUnknownError) && after == b
    else if b.rfqs[id].cached.Some? then r == Ok(b.rfqs[id].cached.value) && after == b
    else
      var snap := Cache.SnapshotOf(cache, staleMaxSec, b.rfqs[id].terms.taker, QuotesOn(b, id).Keys, now);
      exists m :: GivesAnswer(env, SettingFor(env, b.rfqs[id].terms, snap, now), QuotesOn(b, id), port, m) &&
        r == MapAnswer(m) && after == match r case Ok(o) => CacheOutcome(b, id, o) case Err(_) => b
  }

  /**
   An unknown RFQ, a cached outcome, an open window and an error leave the book as it was; a fresh
   answer comes only after the window and is cached.
   */
  lemma CallMeans(env: Env, b: BookState, id: Hash, cache: Cache.CacheState, staleMaxSec: int, now: int,
                  port: Signing.SignPort, r: Result<Outcome, ErrorCode>, after: BookState)
    requires IsCall(env, b, id, cache, staleMaxSec, now, port, r, after)
    ensures r.Err? ==> after == b
    ensures r.Ok? ==> after == CacheOutcome(b, id, r.value) && CachedFor(after, id) == Some(r.value)
    ensures id !in b.rfqs ==> r == Err(RfqUnknownError)
    ensures CachedFor(b, id).Some? ==> r == Ok(CachedFor(b, id).value) && after == b
    ensures id in b.rfqs && CachedFor(b, id).None? ==>
              (r == Err(WindowOpenError) <==> now < b.rfqs[id].terms.windowEndsAt) &&
              (r == Err(PriceStaleError) <==>
               now >= b.rfqs[id].terms.windowEndsAt && !PriceKnown(Cache.SnapshotOf(
                 cache, staleMaxSec, b.rfqs[id].terms.taker, QuotesOn(b, id).Keys, now)))
  {
    if CachedFor(b, id).Some? {
      Alone.CachedStays(b, id);
    } else if id in b.rfqs {
      var snap := Cache.SnapshotOf(cache, staleMaxSec, b.rfqs[id].terms.taker, QuotesOn(b, id).Keys, now);
      var s := SettingFor(env, b.rfqs[id].terms, snap, now);
      var m :| GivesAnswer(env, s, QuotesOn(b, id), port, m) && r == MapAnswer(m);
      GivenTells(env, s, QuotesOn(b, id), port, m);
      CodesTellApart(m);
    }
  }

  /** The price is there, positive and at most a minute old. */
  predicate PriceKnown(snap: ChainSnapshot) {
    snap.mid.Some? && snap.mid.value > 0 && snap.midAge <= 60_000_000_000
  }

  /** m is the open-window error exactly before the window's end, and the stale-price one exactly after it without a price. */
  predicate TellsErrors(s: Setting, m: Result<Outcome, MatchError>) {
    (m == Err(WindowOpen) <==> s.now < s.terms.windowEndsAt) &&
    (m == Err(PriceStale) <==> s.now >= s.terms.windowEndsAt && !PriceKnown(s.snap))
  }

  lemma AnswerTells(env: Env, s: Setting, quotes: seq<Quote>, port: Signing.SignPort)
    ensures TellsErrors(s, Answer(env, s, quotes, port))
  {
    DecisionMeans(s, quotes);
  }

  lemma GivenTells(env: Env, s: Setting, byMaker: map<Address, Quote>, port: Signing.SignPort,
                   m: Result<Outcome, MatchError>)
    requires GivesAnswer(env, s, byMaker, port, m)
    ensures TellsErrors(s, m)
  {
    var order :| IsOrder(order, byMaker.Keys) && m == Answer(env, s, InOrder(byMaker, order), port);
    AnswerTells(env, s, InOrder(byMaker, order), port);
  }

  lemma CodesTellApart(m: Result<Outcome, MatchError>)
    ensures MapAnswer(m) == Err(WindowOpenError) <==> m == Err(WindowOpen)
    ensures MapAnswer(m) == Err(PriceStaleError) <==> m == Err(PriceStale)
  {
  }

  lemma AnsweredCall(env: Env, b: BookState, id: Hash, cache: Cache.CacheState, staleMaxSec: int, now: int,
                     port: Signing.SignPort, answer: Result<Outcome, MatchError>, after: BookState)
    requires id in b.rfqs && after == Alone.Leaves(b, id, answer)
    requires b.rfqs[id].cached.Some? ==> answer == Ok(b.rfqs[id].cached.value) && after == b
    requires var snap := Cache.SnapshotOf(cache, staleMaxSec, b.rfqs[id].terms.taker, QuotesOn(b, id).Keys, now);
             b.rfqs[id].cached.None? ==> GivesAnswer(env, SettingFor(env, b.rfqs[id].terms, snap, now), QuotesOn(b, id), port, answer)
    ensures IsCall(env, b, id, cache, staleMaxSec, now, port, MapAnswer(answer), after)
  {
  }

  /**
   Run alone, the method's book and answer are those of one call of the interleaving machine: Begin,
   ReadChain, CheckCache, TakeBook, Compute, Sign and Commit with nothing between them.
   */
  lemma MatchIsOneCall(env: Env, b: BookState, id: Hash, cache: Cache.CacheState, staleMaxSec: int, now: int,
                       port: Signing.SignPort, r: Result<Outcome, ErrorCode>, after: BookState)
    requires IsCall(env, b, id, cache, staleMaxSec, now, port, r, after)
    ensures exists m :: r == MapAnswer(m) && Alone.Plays(env, b, id, cache, staleMaxSec, now, m, after)
  {
    if id !in b.rfqs {
      Alone.UnknownPlays(env, b, id, cache, staleMaxSec, now);
      assert r == MapAnswer(Err(RfqUnknown));
    } else if b.rfqs[id].cached.Some? {
      Alone.CachedPlays(env, b, id, cache, staleMaxSec, now, Alone.SomeOrder(QuotesOn(b, id).Keys));
      assert r == MapAnswer(Ok(b.rfqs[id].cached.value));
    } else {
      var snap := Cache.SnapshotOf(cache, staleMaxSec, b.rfqs[id].terms.taker, QuotesOn(b, id).Keys, now);
      var m :| GivesAnswer(env, SettingFor(env, b.rfqs[id].terms, snap, now), QuotesOn(b, id), port, m) && r == MapAnswer(m);
      Alone.AnswerPlays(env, b, id, cache, staleMaxSec, now, port, m);
      assert after == Alone.Leaves(b, id, m);
    }
  }
}
