/** A maker's EIP-712 quote signature: the pre-images hashed and the check made (fcewire/quoteauth.go). */
module QuoteAuth {
  import opened Bytes
  import opened Results
  import opened Abi
  import Signing
  import Text

  /** What a maker signs; the handler lets through positive prices of any size and uint64 sizes and nonces. */
  datatype QuoteFields = QuoteFields(rfqId: Hash, maker: Address, price: nat, size: Uint64, nonce: Uint64)

  function QuoteTypeHash(keccak: Signing.Keccak): Hash {
    keccak(Text.Ascii("Quote(bytes32 rfqId,address maker,") + Text.Ascii("uint256 priceUsdE18,uint256 maxFxrpRaw,") +
           Text.Ascii("uint256 nonce)"))
  }

  /** The buffer quoteStructHash fills: a price too wide for 32 bytes is appended as it is. */
  function StructPreimage(typeHash: Hash, q: QuoteFields): seq<Byte> {
    typeHash + q.rfqId + LeftPad(q.maker, 32) + LeftPad(MinimalBytes(q.price), 32) +
    LeftPad(MinimalBytes(q.size), 32) + LeftPad(MinimalBytes(q.nonce), 32)
  }

  /** EIP-712's typeHash and encodeData of the same struct (section "Definition of encodeData"). */
  function EncodeData(typeHash: Hash, q: QuoteFields): seq<Byte> {
    EncodeArguments(Statics([typeHash, q.rfqId, AddressWord(q.maker), Word(q.price), Word(q.size), Word(q.nonce)]))
  }

  lemma PaddedWord(n: nat)
    ensures n < TWO256 ==> LeftPad(MinimalBytes(n), 32) == Word(n)
    ensures n >= TWO256 ==> LeftPad(MinimalBytes(n), 32) == MinimalBytes(n) && |MinimalBytes(n)| > 32
  {
    Pow256Values();
    PaddedMinimalBytes(n, 32);
  }

  lemma PreimageShape(typeHash: Hash, q: QuoteFields)
    ensures StructPreimage(typeHash, q) ==
            typeHash + q.rfqId + AddressWord(q.maker) + LeftPad(MinimalBytes(q.price), 32) + Word(q.size) + Word(q.nonce)
  {
    PaddedWord(q.size);
    PaddedWord(q.nonce);
    assert LeftPad(q.maker, 32) == AddressWord(q.maker);
  }

  lemma EncodeDataShape(typeHash: Hash, q: QuoteFields)
    ensures EncodeData(typeHash, q) ==
            typeHash + q.rfqId + AddressWord(q.maker) + Word(q.price) + Word(q.size) + Word(q.nonce)
  {
    var w5 := [Word(q.nonce)] + [];
    var w4 := [Word(q.size)] + w5;
    var w3 := [Word(q.price)] + w4;
    var w2 := [AddressWord(q.maker)] + w3;
    var w1 := [q.rfqId] + w2;
    var w0 := [typeHash] + w1;
    StaticArguments(w0);
    FlatCons(Word(q.nonce), []);
    FlatCons(Word(q.size), w5);
    FlatCons(Word(q.price), w4);
    FlatCons(AddressWord(q.maker), w3);
    FlatCons(q.rfqId, w2);
    FlatCons(typeHash, w1);
    assert w0 == [typeHash, q.rfqId, AddressWord(q.maker), Word(q.price), Word(q.size), Word(q.nonce)];
  }

  /** The hand-built pre-image is EIP-712's exactly while the price fits a uint256. */
  lemma PreimageIsStandardExactly(typeHash: Hash, q: QuoteFields)
    ensures StructPreimage(typeHash, q) == EncodeData(typeHash, q) <==> q.price < TWO256
  {
    PreimageShape(typeHash, q);
    EncodeDataShape(typeHash, q);
    PaddedWord(q.price);
  }

  /** Five pieces of fixed width but the third, laid end to end, are told apart by the whole. */
  lemma PiecesAgree(t: Hash, i: Hash, j: Hash, a: Hash, b: Hash, x: seq<Byte>, y: seq<Byte>, k: Hash, l: Hash,
                    m: Hash, n: Hash)
    requires t + i + a + x + k + m == t + j + b + y + l + n
    ensures i == j && a == b && x == y && k == l && m == n
  {
    assert |x| == |y|;
    PiecesAt(t, i, a, x, k, m);
    PiecesAt(t, j, b, y, l, n);
  }

  lemma PiecesAt(t: Hash, i: Hash, a: Hash, x: seq<Byte>, k: Hash, m: Hash)
    ensures var all := t + i + a + x + k + m;
            |all| == 160 + |x| && all[32..64] == i && all[64..96] == a && all[96..96 + |x|] == x &&
            all[96 + |x|..128 + |x|] == k && all[128 + |x|..] == m
  {
  }

  /** Different quotes have different pre-images, wide prices included. */
  lemma PreimageIsInjective(typeHash: Hash, p: QuoteFields, q: QuoteFields)
    requires StructPreimage(typeHash, p) == StructPreimage(typeHash, q)
    ensures p == q
  {
    PreimageShape(typeHash, p);
    PreimageShape(typeHash, q);
    PiecesAgree(typeHash, p.rfqId, q.rfqId, AddressWord(p.maker), AddressWord(q.maker),
                LeftPad(MinimalBytes(p.price), 32), LeftPad(MinimalBytes(q.price), 32),
                Word(p.size), Word(q.size), Word(p.nonce), Word(q.nonce));
    assert AddressWord(p.maker)[12..] == p.maker && AddressWord(q.maker)[12..] == q.maker;
    SmallWordInjective(p.size, q.size);
    SmallWordInjective(p.nonce, q.nonce);
    PaddedPriceInjective(p.price, q.price);
  }

  lemma SmallWordInjective(m: Uint64, n: Uint64)
    requires Word(m) == Word(n)
    ensures m == n
  {
    WordRoundTrip(m);
    WordRoundTrip(n);
  }

  lemma PaddedPriceInjective(m: nat, n: nat)
    requires LeftPad(MinimalBytes(m), 32) == LeftPad(MinimalBytes(n), 32)
    ensures m == n
  {
    PaddedWord(m);
    PaddedWord(n);
    if m < TWO256 && n < TWO256 {
      WordRoundTrip(m);
      WordRoundTrip(n);
    } else {
      MinimalBytesRoundTrip(m);
      MinimalBytesRoundTrip(n);
    }
  }

  // ---- the digest and the check ----

  function DomainTypeHash(keccak: Signing.Keccak): Hash {
    keccak(Text.Ascii("EIP712Domain(string name,string version,") +
           Text.Ascii("uint256 chainId,address verifyingContract)"))
  }

  /** The buffer quoteDomainSeparator fills. */
  function DomainPreimage(keccak: Signing.Keccak, chainId: Uint64, escrow: Address): seq<Byte> {
    DomainTypeHash(keccak) + keccak(Text.Ascii("WhisperDesk")) + keccak(Text.Ascii("1")) +
    LeftPad(MinimalBytes(chainId), 32) + LeftPad(escrow, 32)
  }

  function DomainSeparator(keccak: Signing.Keccak, chainId: Uint64, escrow: Address): Hash {
    keccak(DomainPreimage(keccak, chainId, escrow))
  }

  lemma DomainShape(keccak: Signing.Keccak, chainId: Uint64, escrow: Address)
    ensures DomainPreimage(keccak, chainId, escrow) ==
            DomainTypeHash(keccak) + keccak(Text.Ascii("WhisperDesk")) + keccak(Text.Ascii("1")) + Word(chainId) + AddressWord(escrow)
  {
    PaddedWord(chainId);
    assert LeftPad(escrow, 32) == AddressWord(escrow);
  }

  lemma FiveWords(a: Hash, b: Hash, c: Hash, d: Hash, e: Hash)
    ensures EncodeArguments(Statics([a, b, c, d, e])) == a + b + c + d + e
    ensures |a + b + c + d + e| == 160 && (a + b + c + d + e)[96..128] == d && (a + b + c + d + e)[128..] == e
  {
    var w4 := [e] + [];
    var w3 := [d] + w4;
    var w2 := [c] + w3;
    var w1 := [b] + w2;
    var w0 := [a] + w1;
    StaticArguments(w0);
    FlatCons(e, []);
    FlatCons(d, w4);
    FlatCons(c, w3);
    FlatCons(b, w2);
    FlatCons(a, w1);
    assert w0 == [a, b, c, d, e];
  }

  /** EIP-712's domain separator is the hash of exactly this encoding of five words (section "Definition of domainSeparator"). */
  lemma DomainIsStandard(keccak: Signing.Keccak, chainId: Uint64, escrow: Address)
    ensures DomainPreimage(keccak, chainId, escrow) ==
            EncodeArguments(Statics([DomainTypeHash(keccak), keccak(Text.Ascii("WhisperDesk")), keccak(Text.Ascii("1")),
                                     Word(chainId), AddressWord(escrow)]))
  {
    DomainShape(keccak, chainId, escrow);
    FiveWords(DomainTypeHash(keccak), keccak(Text.Ascii("WhisperDesk")), keccak(Text.Ascii("1")), Word(chainId), AddressWord(escrow));
  }

  /** Another chain or another escrow is another domain. */
  lemma DomainIsInjective(keccak: Signing.Keccak, c: Uint64, e: Address, d: Uint64, f: Address)
    requires DomainPreimage(keccak, c, e) == DomainPreimage(keccak, d, f)
    ensures c == d && e == f
  {
    var t, n, v := DomainTypeHash(keccak), keccak(Text.Ascii("WhisperDesk")), keccak(Text.Ascii("1"));
    DomainShape(keccak, c, e);
    DomainShape(keccak, d, f);
    FiveWords(t, n, v, Word(c), AddressWord(e));
    FiveWords(t, n, v, Word(d), AddressWord(f));
    SmallWordInjective(c, d);
    assert AddressWord(e)[12..] == e && AddressWord(f)[12..] == f;
  }

  /** The 66 bytes a digest is the hash of. */
  function DigestPreimage(keccak: Signing.Keccak, chainId: Uint64, escrow: Address, q: QuoteFields): seq<Byte> {
    [0x19, 0x01] + DomainSeparator(keccak, chainId, escrow) + keccak(StructPreimage(QuoteTypeHash(keccak), q))
  }

  function QuoteDigest(keccak: Signing.Keccak, chainId: Uint64, escrow: Address, q: QuoteFields): Hash {
    keccak(DigestPreimage(keccak, chainId, escrow, q))
  }

  /** VerifyQuoteSignature: the buffers grow step by step, and the signature's last byte is lowered in a copy. */
  method VerifyQuoteSignature(keccak: Signing.Keccak, recover: Signing.Recovery, chainId: Uint64, escrow: Address,
                              q: QuoteFields, sig: seq<Byte>) returns (accepted: bool)
    ensures accepted <==>
              |sig| == 65 &&
              recover(QuoteDigest(keccak, chainId, escrow, q), Signing.ShiftDown(sig)) == Some(q.maker)
  {
    if |sig| != 65 {
      return false;
    }
    var buf: seq<Byte> := QuoteTypeHash(keccak);
    buf := buf + q.rfqId;
    buf := buf + LeftPad(q.maker, 32);
    buf := buf + LeftPad(MinimalBytes(q.price), 32);
    buf := buf + LeftPad(MinimalBytes(q.size), 32);
    buf := buf + LeftPad(MinimalBytes(q.nonce), 32);
    var structHash := keccak(buf);
    buf := [0x19, 0x01];
    buf := buf + DomainSeparator(keccak, chainId, escrow);
    buf := buf + structHash;
    var digest := keccak(buf);
    var normalized := sig;
    if normalized[64] >= 27 {
      normalized := normalized[64 := normalized[64] - 27];
    }
    return recover(digest, normalized) == Some(q.maker);
  }

  /**
   Two quotes that differ, or are for different chains or escrows, share a digest, and so a signature,
   exactly where keccak collides: on their two digest pre-images, or, where these are one, on the
   domain and struct pre-images behind them, of which at least one pair differs.
   */
  lemma SharedDigestIsACollision(keccak: Signing.Keccak, c: Uint64, e: Address, p: QuoteFields, d: Uint64, f: Address,
                                 q: QuoteFields)
    requires c != d || e != f || p != q
    ensures var a, b := StructPreimage(QuoteTypeHash(keccak), p), StructPreimage(QuoteTypeHash(keccak), q);
            var x, y := DomainPreimage(keccak, c, e), DomainPreimage(keccak, d, f);
            var u, v := DigestPreimage(keccak, c, e, p), DigestPreimage(keccak, d, f, q);
            (a == b <==> p == q) && (x == y <==> c == d && e == f) &&
            (u == v <==> keccak(a) == keccak(b) && keccak(x) == keccak(y)) &&
            (QuoteDigest(keccak, c, e, p) == QuoteDigest(keccak, d, f, q) <==>
             (keccak(a) == keccak(b) && keccak(x) == keccak(y)) || (u != v && keccak(u) == keccak(v)))
  {
    var t := QuoteTypeHash(keccak);
    if StructPreimage(t, p) == StructPreimage(t, q) {
      PreimageIsInjective(t, p, q);
    }
    if DomainPreimage(keccak, c, e) == DomainPreimage(keccak, d, f) {
      DomainIsInjective(keccak, c, e, d, f);
    }
    TwoHashesAgree([0x19, 0x01], DomainSeparator(keccak, c, e), DomainSeparator(keccak, d, f),
                   keccak(StructPreimage(t, p)), keccak(StructPreimage(t, q)));
  }

  lemma TwoHashesAgree(head: seq<Byte>, x: Hash, y: Hash, a: Hash, b: Hash)
    ensures head + x + a == head + y + b <==> x == y && a == b
  {
    var n := |head|;
    assert (head + x + a)[n..n + 32] == x && (head + y + b)[n..n + 32] == y;
    assert (head + x + a)[n + 32..] == a && (head + y + b)[n + 32..] == b;
  }

  /** Where the fields lie in a quote's pre-image, in the order the type names them. */
  lemma PreimageAt(typeHash: Hash, q: QuoteFields)
    requires q.price < TWO256
    ensures var b := StructPreimage(typeHash, q);
            |b| == 192 && b[..32] == typeHash && b[32..64] == q.rfqId && b[76..96] == q.maker &&
            FromBE(b[96..128]) == q.price && FromBE(b[128..160]) == q.size && FromBE(b[160..]) == q.nonce
  {
    PreimageShape(typeHash, q);
    PaddedWord(q.price);
    PiecesAt(typeHash, q.rfqId, AddressWord(q.maker), Word(q.price), Word(q.size), Word(q.nonce));
    WordRoundTrip(q.price);
    WordRoundTrip(q.size);
    WordRoundTrip(q.nonce);
    var b := StructPreimage(typeHash, q);
    assert b[64..96] == AddressWord(q.maker);
    assert b[76..96] == b[64..96][12..];
    assert b[..32] == typeHash;
  }
}
