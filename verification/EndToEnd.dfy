/** From the sealed book to the chain: a match the enclave signs is one lock() accepts. */
module EndToEnd {
  import opened Bytes
  import opened Results
  import opened Sums
  import opened Abi
  import opened Escrow
  import opened Settlement
  import M = Matching
  import E = MatchEngine
  import L = Ledger
  import P = Protocol
  import B = Book
  import Bands
  import Signing
  import Text

  /** What the chain must still offer at lock time; each clause is something the enclave cannot see or fix. */
  ghost predicate ChainStillAgrees(cfg: Config, w: World, s: M.Setting, maker: Address, x: LockContext) {
    !w.paused && s.escrow == cfg.self && s.terms.id !in w.matches && w.nextTag + 1 < TWO32 &&
    x.feeCovered && x.surplusTaken &&
    x.now <= M.ExpiryOf(s.now) && x.midTime <= x.now && x.now - x.midTime <= MAX_ORACLE_AGE &&
    BalanceOf(w, s.terms.taker).armedUntil >= x.now &&
    BalanceOf(w, s.terms.taker).armed - BalanceOf(w, s.terms.taker).committed >= s.snap.takerAvailable &&
    Get(w.vault.book.free, maker) >= M.BondOf(s.snap, maker)
  }

  /** The policies of the two sides, and the book's own checks on the RFQ. */
  ghost predicate SamePolicy(cfg: Config, s: M.Setting) {
    s.cfg.bandBips == BAND_BIPS && s.terms.amount >= s.cfg.minBlock >= cfg.minBlock &&
    s.terms.xrpl != [] && |s.terms.xrpl| < TWO64
  }

  // ---- the price ----

  /** The products lock() forms stay within uint256; it reverts where they do not. */
  predicate NoOverflow(amount: Uint64, price: int, mid: nat) {
    mid * (10_000 + BAND_BIPS) < TWO256 && amount * price < TWO256
  }

  lemma Product(a: nat, b: nat, m: nat, n: nat)
    requires a < m && b <= n
    ensures a * b <= m * n
  {
    Bands.Monotone(b, n, a);
    Bands.Monotone(a, m, n);
  }

  lemma DropsFit(amount: Uint64, price: nat, mid: nat)
    requires mid > 0 && price <= 2 * mid
    ensures amount * price / mid <= 2 * amount
  {
    Bands.Monotone(price, 2 * mid, amount);
    Bands.QuotientBounds(amount * price, mid);
    assert amount * (2 * mid) == 2 * amount * mid;
    Bands.CancelFactor(amount * price / mid, 2 * amount, mid);
  }

  /** The enclave's band test and lock()'s are one test: what passed the first is priced if and only if nothing overflows. */
  lemma SameBand(s: M.Setting, w: M.Quote, mi: Instruction, x: LockContext)
    requires s.snap.mid == Some(x.mid) && x.mid > 0 && s.cfg.bandBips == BAND_BIPS
    requires mi == M.InstructionFor(s, w) && M.InBand(w.price, x.mid, s.cfg.bandBips)
    requires x.feeCovered && x.midTime <= x.now && x.now - x.midTime <= MAX_ORACLE_AGE
    ensures w.price >= 0 && (Priced(mi, x) == None <==> NoOverflow(s.terms.amount, w.price, x.mid))
    ensures NoOverflow(s.terms.amount, w.price, x.mid) ==> w.price < TWO256
  {
    assert 9_900 * x.mid <= w.price * 10_000 <= 10_100 * x.mid;
    assert w.price <= 2 * x.mid;
    DropsFit(s.terms.amount, w.price, x.mid);
  }

  /** Below 2^128 no product comes near the bound. */
  lemma SmallMidsDoNotOverflow(amount: Uint64, price: int, mid: nat)
    requires mid < TWO128 && M.InBand(price, mid, BAND_BIPS)
    ensures NoOverflow(amount, price, mid)
  {
    assert 9_900 * mid <= price * 10_000 <= 10_100 * mid;
    Product(amount, price, TWO64, 2 * TWO128);
  }

  /** An overflowing price is refused, whatever instruction its bytes decode to. */
  lemma OverflowIsRefused(mi: Instruction, x: LockContext)
    requires x.mid * (10_000 + BAND_BIPS) >= TWO256 && mi.price >= 0
    ensures Priced(mi, x).Some?
  {
  }

  // ---- the match ----

  /** The bond the enclave asks for is the bond lock() takes. */
  lemma SameBond(amount: Uint64)
    ensures BondFor(amount) == M.RequiredBond(amount) < TWO128
  {
  }

  lemma WinnerPasses(s: M.Setting, quotes: seq<M.Quote>)
    requires M.Decide(s, quotes).Ok? && M.Decide(s, quotes).value.Chosen?
    ensures s.Priced() && s.TakerFunded() && s.Eligible(M.Decide(s, quotes).value.winner)
  {
    M.SurvivorsAre(s, quotes);
    M.BestOutranksTheRest(M.Survivors(s, quotes));
  }

  /** An instruction in range, rightly signed, with funds and bond behind it, stands or falls by its price. */
  lemma LocksIfPriced(cfg: Config, w: World, s: M.Setting, q: M.Quote, signature: seq<Byte>, x: LockContext, crypto: Crypto)
    requires Joint(cfg, w) && SamePolicy(cfg, s) && ChainStillAgrees(cfg, w, s, q.maker, x)
    requires s.snap.mid == Some(x.mid) && s.TakerFunded() && s.Eligible(q) && x.mid > 0
    requires 0 <= q.price < TWO256
    requires SignatureFault(cfg, w, EncodeInstruction(M.InstructionFor(s, q)), signature, crypto) == None
    ensures Lock(cfg, w, EncodeInstruction(M.InstructionFor(s, q)), signature, x, crypto).Ok? <==>
            Priced(M.InstructionFor(s, q), x) == None
  {
    RoundTrip(M.InstructionFor(s, q));
    assert CommittedFor(w, s.terms.taker);
    SameBond(s.terms.amount);
  }

  lemma LockNeedsAPrice(cfg: Config, w: World, data: seq<Byte>, signature: seq<Byte>, x: LockContext, crypto: Crypto)
    requires x.mid * (10_000 + BAND_BIPS) >= TWO256
    ensures Lock(cfg, w, data, signature, x, crypto).Err?
  {
    if DecodeInstruction(data).Some? {
      OverflowIsRefused(DecodeInstruction(data).value, x);
    }
  }

  /**
   A winning quote's instruction, encoded and rightly signed, is accepted by lock() if and only if no
   product overflows: the six filters and the RFQ checks leave the escrow nothing else to refuse
   while the mid is the one that was matched at and the chain still agrees.
   */
  lemma SignedMatchLocks(cfg: Config, w: World, s: M.Setting, quotes: seq<M.Quote>, signature: seq<Byte>, x: LockContext,
                         crypto: Crypto)
    requires Joint(cfg, w) && SamePolicy(cfg, s)
    requires M.Decide(s, quotes).Ok? && M.Decide(s, quotes).value.Chosen?
    requires ChainStillAgrees(cfg, w, s, M.Decide(s, quotes).value.winner.maker, x) && s.snap.mid == Some(x.mid)
    requires SignatureFault(cfg, w, EncodeInstruction(M.InstructionFor(s, M.Decide(s, quotes).value.winner)), signature, crypto)
             == None
    ensures var q := M.Decide(s, quotes).value.winner;
            Lock(cfg, w, EncodeInstruction(M.InstructionFor(s, q)), signature, x, crypto).Ok? <==>
            NoOverflow(s.terms.amount, q.price, x.mid)
  {
    var q := M.Decide(s, quotes).value.winner;
    WinnerPasses(s, quotes);
    SameBand(s, q, M.InstructionFor(s, q), x);
    if x.mid * (10_000 + BAND_BIPS) >= TWO256 {
      LockNeedsAPrice(cfg, w, EncodeInstruction(M.InstructionFor(s, q)), signature, x, crypto);
    } else {
      assert q.price * 10_000 < TWO256;
      LocksIfPriced(cfg, w, s, q, signature, x, crypto);
    }
  }

  // ---- the signature ----

  /** The shape lock() asks of a signature: V of 27 or 28, and S in the lower half. */
  predicate Canonical(signature: seq<Byte>) {
    |signature| == 65 && (signature[64] == 27 || signature[64] == 28) && FromBE(signature[32..64]) <= HALF_ORDER
  }

  /** The digest the enclave builds by hand is the one lock() encodes. */
  lemma SameDigest(cfg: Config, keccak: Signing.Keccak, data: seq<Byte>)
    ensures LockDigest(cfg, keccak, data) == Signing.EthSignedDigest(keccak, keccak(data), cfg.chainId)
  {
    Signing.MessageIsAbiEncoding(keccak(data), cfg.chainId);
  }

  /** What the client's check accepts for the registered signer, lock() accepts if and only if it is canonical. */
  lemma VerifiedIsAccepted(cfg: Config, w: World, data: seq<Byte>, signature: seq<Byte>, crypto: Crypto)
    requires Signing.VerifyMatch(crypto.keccak, crypto.recover, data, signature, cfg.chainId, w.teeSigner).Ok?
    ensures SignatureFault(cfg, w, data, signature, crypto) == None <==>
            Canonical(signature) && w.teeSigner != L.ZeroAddress()
  {
    SameDigest(cfg, crypto.keccak, data);
  }

  /** The signature of a genuine key with S in the lower half is canonical. */
  lemma GenuineIsCanonical(keccak: Signing.Keccak, recover: Signing.Recovery, mi: Instruction, chainId: Uint64,
                           key: Signing.Key, signer: Address)
    requires Signing.KeyOf(key, recover, signer) && forall digest: Hash :: FromBE(key(digest)[32..64]) <= HALF_ORDER
    ensures var r := Signing.SignLocally(keccak, recover, mi, chainId, key);
            r.Ok? && Canonical(r.value.signature) && r.value.signer == signer
  {
    Signing.GenuineKeySigns(keccak, recover, mi, chainId, key, signer);
    var digest := Signing.PersonalDigest(keccak, Signing.PayloadHash(keccak, keccak(EncodeInstruction(mi)), chainId));
    var sig := Signing.SignLocally(keccak, recover, mi, chainId, key).value.signature;
    assert sig == Signing.ShiftUp(key(digest));
    assert sig[32..64] == key(digest)[32..64];
  }

  lemma PublishedBytes(env: E.Env, s: M.Setting, d: M.Decision, o: M.Outcome)
    requires E.Carries(env, s, d, o) && o.Matched?
    ensures d.Chosen? && Text.FromHex(o.abiEncoded) == EncodeInstruction(M.InstructionFor(s, d.winner))
    ensures Text.FromHex(o.teeSignature) == o.signed.value.signature
    ensures Signing.VerifyMatch(env.keccak, env.recover, EncodeInstruction(M.InstructionFor(s, d.winner)),
                                o.signed.value.signature, env.chainId, o.signed.value.signer).Ok?
  {
    Text.HexRoundTrip(EncodeInstruction(M.InstructionFor(s, d.winner)));
    Text.HexRoundTrip(o.signed.value.signature);
  }

  lemma LockNeedsASigner(cfg: Config, w: World, data: seq<Byte>, signature: seq<Byte>, x: LockContext, crypto: Crypto)
    requires SignatureFault(cfg, w, data, signature, crypto).Some?
    ensures Lock(cfg, w, data, signature, x, crypto).Err?
  {
  }

  /**
   The two hex strings a call returns are what lock() takes: with the outcome's signer registered and
   the chain in agreement, they lock if and only if the signature is canonical, the signer is not the
   zero address and no product overflows.
   */
  lemma ReturnedMatchLocks(cfg: Config, w: World, env: E.Env, ev: P.Evidence, o: M.Outcome, x: LockContext)
    requires Joint(cfg, w) && P.Proves(env, ev, o) && o.Matched? && SamePolicy(cfg, ev.setting)
    requires ChainStillAgrees(cfg, w, ev.setting, o.signed.value.instruction.maker, x)
    requires ev.setting.snap.mid == Some(x.mid)
    requires w.teeSigner == o.signed.value.signer && cfg.chainId == env.chainId
    ensures Lock(cfg, w, Text.FromHex(o.abiEncoded), Text.FromHex(o.teeSignature), x, Crypto(env.keccak, env.recover)).Ok? <==>
            Canonical(o.signed.value.signature) && o.signed.value.signer != L.ZeroAddress() &&
            NoOverflow(ev.setting.terms.amount, o.signed.value.instruction.price, x.mid)
  {
    var crypto, quotes := Crypto(env.keccak, env.recover), B.InOrder(ev.byMaker, ev.order);
    var d := M.Decide(ev.setting, quotes).value;
    PublishedBytes(env, ev.setting, d, o);
    var data, signature := EncodeInstruction(M.InstructionFor(ev.setting, d.winner)), o.signed.value.signature;
    VerifiedIsAccepted(cfg, w, data, signature, crypto);
    if SignatureFault(cfg, w, data, signature, crypto).Some? {
      LockNeedsASigner(cfg, w, data, signature, x, crypto);
    } else {
      SignedMatchLocks(cfg, w, ev.setting, quotes, signature, x, crypto);
    }
  }
}
