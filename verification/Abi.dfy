/**
 Solidity's contract ABI (the "Formal Specification of the Encoding" section of the Contract ABI
 Specification), the match instruction encoded with it, and the decoder lock() applies.
 */
module Abi {
  import opened Bytes
  import opened Results

  // ---- the encoding, for any value built from words, byte strings and tuples ----

  datatype Value = Static(word: Hash) | Text(data: seq<Byte>) | Tuple(fields: seq<Value>)

  predicate Dynamic(v: Value) {
    match v
    case Static(_) => false
    case Text(_) => true
    case Tuple(fields) => exists i | 0 <= i < |fields| :: Dynamic(fields[i])
  }

  function Encode(v: Value): seq<Byte>
    decreases v, 1
  {
    match v
    case Static(w) => w
    case Text(data) => Word(|data|) + data + Zeros(PaddingFor(|data|))
    case Tuple(fields) => Heads(fields, HeadSize(fields)) + Tails(fields)
  }

  function PaddingFor(length: nat): nat { (32 - length % 32) % 32 }

  function HeadSize(fields: seq<Value>): nat
    decreases fields, 0
  {
    if fields == [] then 0
    else (if Dynamic(fields[0]) then 32 else |Encode(fields[0])|) + HeadSize(fields[1..])
  }

  /** The heads, a dynamic field's head being the offset of its tail. */
  function Heads(fields: seq<Value>, offset: nat): seq<Byte>
    decreases fields, 0
  {
    if fields == [] then []
    else if Dynamic(fields[0]) then Word(offset) + Heads(fields[1..], offset + |Encode(fields[0])|)
    else Encode(fields[0]) + Heads(fields[1..], offset)
  }

  function Tails(fields: seq<Value>): seq<Byte>
    decreases fields, 0
  {
    if fields == [] then []
    else if Dynamic(fields[0]) then Encode(fields[0]) + Tails(fields[1..])
    else Tails(fields[1..])
  }

  /** abi.encode of an argument list: the list is encoded as one tuple. */
  function EncodeArguments(arguments: seq<Value>): seq<Byte> {
    Encode(Tuple(arguments))
  }

  /** One dynamic argument is its own encoding behind the offset word 0x20. */
  lemma SoleDynamicArgument(v: Value)
    requires Dynamic(v)
    ensures EncodeArguments([v]) == Word(0x20) + Encode(v)
    ensures |EncodeArguments([v])| == |Encode(v)| + 32
  {
    var fields := [v];
    assert fields[1..] == [];
    assert Heads(fields, HeadSize(fields)) == Word(0x20) + [];
    assert Tails(fields) == Encode(v) + [];
  }

  // ---- the match instruction ----

  /** The source's MatchInstruction; amount and price are big.Ints. */
  datatype Instruction = Instruction(
    matchId: Hash, escrow: Address, taker: Address, maker: Address,
    amount: int, price: int, xrpl: seq<Byte>, expiresAt: Uint64)

  function AddressWord(a: Address): Hash { Zeros(12) + a }

  /** go-ethereum packs a big.Int modulo 2^256, whatever its size or sign. */
  function BigWord(n: int): Hash { Word(n % TWO256) }

  function InstructionFields(mi: Instruction): seq<Value> {
    [Static(mi.matchId), Static(AddressWord(mi.escrow)), Static(AddressWord(mi.taker)), Static(AddressWord(mi.maker)),
     Static(BigWord(mi.amount)), Static(BigWord(mi.price)), Text(mi.xrpl), Static(Word(mi.expiresAt))]
  }

  /** abi.encode(mi): the instruction as the one, tuple-typed argument. */
  function EncodeInstruction(mi: Instruction): seq<Byte> {
    EncodeArguments([Tuple(InstructionFields(mi))])
  }

  /** The eight fields packed as eight arguments, the encoding the source warns against. */
  function EncodeFlat(mi: Instruction): seq<Byte> {
    EncodeArguments(InstructionFields(mi))
  }

  function WordAt(b: seq<Byte>, at: nat): Hash
    requires at + 32 <= |b|
  {
    b[at..at + 32]
  }

  /** abi.decode(data, (MatchInstruction)), with the checks on which Solidity's decoder reverts. */
  function DecodeInstruction(b: seq<Byte>): (r: Option<Instruction>)
    ensures r.Some? ==> InRange(r.value)
  {
    if |b| < 32 then None
    else
      var start := FromBE(WordAt(b, 0));
      if start >= TWO64 || start + 0x100 > |b| then None
      else
        var escrow, taker, maker := WordAt(b, start + 0x20), WordAt(b, start + 0x40), WordAt(b, start + 0x60);
        var amount, price := WordAt(b, start + 0x80), WordAt(b, start + 0xa0);
        var textOffset, expiresAt := FromBE(WordAt(b, start + 0xc0)), FromBE(WordAt(b, start + 0xe0));
        if !IsAddress(escrow) || !IsAddress(taker) || !IsAddress(maker) || expiresAt >= TWO64 then None
        else if textOffset >= TWO64 || start + textOffset + 32 > |b| then None
        else
          var textAt := start + textOffset + 32;
          var length := FromBE(WordAt(b, textAt - 32));
          if length >= TWO64 || textAt + length > |b| then None
          else
            WordBelow(amount);
            WordBelow(price);
            Some(Instruction(WordAt(b, start), escrow[12..], taker[12..], maker[12..],
                             FromBE(amount), FromBE(price), b[textAt..textAt + length], expiresAt))
  }

  lemma WordBelow(w: Hash)
    ensures FromBE(w) < TWO256
  {
    Pow256Values();
    ToFromBE(w);
  }

  predicate IsAddress(w: Hash) { w[..12] == Zeros(12) }

  /** The field values the ABI types of the tuple can hold. */
  predicate InRange(mi: Instruction) {
    0 <= mi.amount < TWO256 && 0 <= mi.price < TWO256 && |mi.xrpl| < TWO64
  }

  // ---- layout ----

  function Flat(words: seq<Hash>): seq<Byte> {
    if words == [] then [] else words[0] + Flat(words[1..])
  }

  lemma WordBehind(head: Hash, tail: seq<Byte>, k: nat)
    requires 32 * k + 32 <= |tail|
    ensures (head + tail)[32 * (k + 1)..32 * (k + 1) + 32] == tail[32 * k..32 * k + 32]
  {
  }

  lemma {:induction false} FlatAt(words: seq<Hash>, rest: seq<Byte>)
    ensures |Flat(words)| == 32 * |words|
    ensures forall i | 0 <= i < |words| :: (Flat(words) + rest)[32 * i..32 * i + 32] == words[i]
  {
    if words != [] {
      FlatAt(words[1..], rest);
      var tail: seq<Byte> := Flat(words[1..]) + rest;
      assert Flat(words) + rest == words[0] + tail;
      forall i | 0 <= i < |words|
        ensures (words[0] + tail)[32 * i..32 * i + 32] == words[i]
      {
        if i > 0 {
          WordBehind(words[0], tail, i - 1);
          assert words[i] == words[1..][i - 1];
        }
      }
    }
  }

  function HeadWords(mi: Instruction): seq<Hash> {
    [mi.matchId, AddressWord(mi.escrow), AddressWord(mi.taker), AddressWord(mi.maker),
     BigWord(mi.amount), BigWord(mi.price), Word(0x100), Word(mi.expiresAt)]
  }

  lemma {:induction false} StaticHeads(words: seq<Hash>, rest: seq<Value>, offset: nat)
    ensures HeadSize(Statics(words) + rest) == 32 * |words| + HeadSize(rest)
    ensures Heads(Statics(words) + rest, offset) == Flat(words) + Heads(rest, offset)
    ensures Tails(Statics(words) + rest) == Tails(rest)
  {
    if words == [] {
      assert Statics(words) + rest == rest;
    } else {
      var others := Statics(words[1..]) + rest;
      assert Statics(words) + rest == [Static(words[0])] + others;
      StaticHead(words[0], others, offset);
      StaticHeads(words[1..], rest, offset);
      assert words[0] + (Flat(words[1..]) + Heads(rest, offset)) == Flat(words) + Heads(rest, offset);
    }
  }

  lemma StaticHead(w: Hash, rest: seq<Value>, offset: nat)
    ensures HeadSize([Static(w)] + rest) == 32 + HeadSize(rest)
    ensures Heads([Static(w)] + rest, offset) == w + Heads(rest, offset)
    ensures Tails([Static(w)] + rest) == Tails(rest)
  {
    var fields := [Static(w)] + rest;
    assert fields[1..] == rest;
  }

  function Statics(words: seq<Hash>): seq<Value> {
    seq(|words|, i requires 0 <= i < |words| => Static(words[i]))
  }

  /** Static arguments are simply laid end to end. */
  lemma StaticArguments(words: seq<Hash>)
    ensures EncodeArguments(Statics(words)) == Flat(words)
  {
    assert Statics(words) + [] == Statics(words);
    StaticHeads(words, [], HeadSize(Statics(words)));
  }

  lemma FlatLayout(mi: Instruction)
    ensures EncodeFlat(mi) == Flat(HeadWords(mi)) + Word(|mi.xrpl|) + mi.xrpl + Zeros(PaddingFor(|mi.xrpl|))
  {
    var fields, words, text := InstructionFields(mi), HeadWords(mi), Text(mi.xrpl);
    assert fields == Statics(words[..6]) + [text, Static(words[7])];
    TextHeads(text, words[7], 0x100);
    StaticHeads(words[..6], [text, Static(words[7])], 0x100);
    HeadWordsSplit(words);
  }

  /** A dynamic field and a word after it: the offset and the word in the head, the field in the tail. */
  lemma TextHeads(text: Value, w: Hash, offset: nat)
    requires text.Text?
    ensures HeadSize([text, Static(w)]) == 64
    ensures Heads([text, Static(w)], offset) == Word(offset) + w
    ensures Tails([text, Static(w)]) == Encode(text)
  {
    var fields, last := [text, Static(w)], [Static(w)];
    assert last == Statics([w]) + [];
    StaticHeads([w], [], offset + |Encode(text)|);
    assert fields[1..] == last;
    assert Flat([w]) == w + Flat([]);
    assert Tails(fields) == Encode(text) + Tails(last);
  }

  lemma HeadWordsSplit(words: seq<Hash>)
    requires |words| == 8
    ensures Flat(words) == Flat(words[..6]) + words[6] + words[7]
  {
    FlatSplit(words[..6], words[6..]);
    assert words[..6] + words[6..] == words;
    assert words[6..][1..] == [words[7]];
    assert Flat([words[7]]) == words[7] + Flat([]);
  }

  lemma {:induction false} FlatSplit(a: seq<Hash>, b: seq<Hash>)
    ensures Flat(a + b) == Flat(a) + Flat(b)
  {
    if a == [] {
      assert a + b == b;
    } else {
      assert (a + b)[1..] == a[1..] + b;
      FlatSplit(a[1..], b);
    }
  }

  lemma FlatCons(w: Hash, rest: seq<Hash>)
    ensures Flat([w] + rest) == w + Flat(rest)
  {
    assert ([w] + rest)[1..] == rest;
  }

  /** The tuple encoding is the flat one behind the word 0x20, so the flat one is 32 bytes short. */
  lemma TupleIsOffsetThenFlat(mi: Instruction)
    ensures EncodeInstruction(mi) == Word(0x20) + EncodeFlat(mi)
    ensures |EncodeInstruction(mi)| == |EncodeFlat(mi)| + 32
  {
    assert Dynamic(InstructionFields(mi)[6]);
    SoleDynamicArgument(Tuple(InstructionFields(mi)));
  }

  lemma Layout(mi: Instruction)
    ensures EncodeInstruction(mi) ==
            Flat([Word(0x20)] + HeadWords(mi) + [Word(|mi.xrpl|)]) + (mi.xrpl + Zeros(PaddingFor(|mi.xrpl|)))
  {
    TupleIsOffsetThenFlat(mi);
    FlatLayout(mi);
    FlatSplit([Word(0x20)] + HeadWords(mi), [Word(|mi.xrpl|)]);
    FlatSplit([Word(0x20)], HeadWords(mi));
    assert Flat([Word(0x20)]) == Word(0x20) + Flat([]);
    assert Flat([Word(|mi.xrpl|)]) == Word(|mi.xrpl|) + Flat([]);
  }

  // ---- the round trip ----

  /** lock()'s decoder recovers exactly the instructions whose fields fit their ABI types. */
  lemma RoundTrip(mi: Instruction)
    ensures DecodeInstruction(EncodeInstruction(mi)) == Some(mi) <==> InRange(mi)
  {
    if InRange(mi) {
      DecodesBack(mi);
    }
  }

  /** The ten words of a laid-out instruction, read at their offsets. */
  lemma WordsRead(words: seq<Hash>, text: seq<Byte>, b: seq<Byte>)
    requires |words| == 10 && b == Flat(words) + text
    ensures |b| == 0x140 + |text| && b[0x140..] == text
    ensures WordAt(b, 0) == words[0] && WordAt(b, 0x20) == words[1] && WordAt(b, 0x40) == words[2]
    ensures WordAt(b, 0x60) == words[3] && WordAt(b, 0x80) == words[4] && WordAt(b, 0xa0) == words[5]
    ensures WordAt(b, 0xc0) == words[6] && WordAt(b, 0xe0) == words[7] && WordAt(b, 0x100) == words[8]
    ensures WordAt(b, 0x120) == words[9]
  {
    FlatAt(words, text);
    assert b[32 * 0..32 * 0 + 32] == words[0] && b[32 * 1..32 * 1 + 32] == words[1];
    assert b[32 * 2..32 * 2 + 32] == words[2] && b[32 * 3..32 * 3 + 32] == words[3];
    assert b[32 * 4..32 * 4 + 32] == words[4] && b[32 * 5..32 * 5 + 32] == words[5];
    assert b[32 * 6..32 * 6 + 32] == words[6] && b[32 * 7..32 * 7 + 32] == words[7];
    assert b[32 * 8..32 * 8 + 32] == words[8] && b[32 * 9..32 * 9 + 32] == words[9];
  }

  lemma BigWordRoundTrip(n: int)
    requires 0 <= n < TWO256
    ensures FromBE(BigWord(n)) == n
  {
    SmallModulo(n, TWO256);
    WordRoundTrip(n);
  }

  lemma SmallModulo(n: nat, m: nat)
    requires n < m
    ensures n % m == n
  {
  }

  lemma SmallOffsets(tuple: nat, text: nat)
    requires tuple == 0x20 && text == 0x100
    ensures FromBE(Word(tuple)) == tuple && FromBE(Word(text)) == text
  {
    WordRoundTrip(tuple);
    WordRoundTrip(text);
  }

  lemma AddressWordRoundTrip(a: Address)
    ensures IsAddress(AddressWord(a)) && AddressWord(a)[12..] == a
  {
  }

  lemma DecodeLaidOut(words: seq<Hash>, text: seq<Byte>, b: seq<Byte>, length: nat)
    requires |words| == 10 && b == Flat(words) + text
    requires FromBE(words[0]) == 0x20 && FromBE(words[7]) == 0x100
    requires IsAddress(words[2]) && IsAddress(words[3]) && IsAddress(words[4])
    requires FromBE(words[8]) < TWO64
    requires FromBE(words[9]) == length < TWO64 && length <= |text|
    ensures DecodeInstruction(b) ==
            Some(Instruction(words[1], words[2][12..], words[3][12..], words[4][12..],
                             FromBE(words[5]), FromBE(words[6]), text[..length], FromBE(words[8])))
  {
    WordsRead(words, text, b);
    assert b[0x140..0x140 + length] == b[0x140..][..length];
  }

  lemma DecodesBack(mi: Instruction)
    requires InRange(mi)
    ensures DecodeInstruction(EncodeInstruction(mi)) == Some(mi)
  {
    var words := [Word(0x20)] + HeadWords(mi) + [Word(|mi.xrpl|)];
    var text := mi.xrpl + Zeros(PaddingFor(|mi.xrpl|));
    Layout(mi);
    SmallOffsets(0x20, 0x100);
    BigWordRoundTrip(mi.amount);
    BigWordRoundTrip(mi.price);
    WordRoundTrip(mi.expiresAt);
    WordRoundTrip(|mi.xrpl|);
    AddressWordRoundTrip(mi.escrow);
    AddressWordRoundTrip(mi.taker);
    AddressWordRoundTrip(mi.maker);
    DecodeLaidOut(words, text, EncodeInstruction(mi), |mi.xrpl|);
    assert text[..|mi.xrpl|] == mi.xrpl;
  }

  /** Where the fields lie in the bytes that are signed, at the offsets every reader of them uses. */
  lemma EncodedAt(mi: Instruction)
    requires InRange(mi)
    ensures var b := EncodeInstruction(mi);
            |b| >= 0x140 + |mi.xrpl| && FromBE(b[..0x20]) == 0x20 && b[0x20..0x40] == mi.matchId &&
            b[0x4c..0x60] == mi.escrow && b[0x6c..0x80] == mi.taker && b[0x8c..0xa0] == mi.maker &&
            FromBE(b[0xa0..0xc0]) == mi.amount && FromBE(b[0xc0..0xe0]) == mi.price &&
            FromBE(b[0xe0..0x100]) == 0x100 && FromBE(b[0x100..0x120]) == mi.expiresAt &&
            FromBE(b[0x120..0x140]) == |mi.xrpl| && b[0x140..0x140 + |mi.xrpl|] == mi.xrpl
  {
    var b, text := EncodeInstruction(mi), mi.xrpl + Zeros(PaddingFor(|mi.xrpl|));
    Layout(mi);
    WordsRead([Word(0x20)] + HeadWords(mi) + [Word(|mi.xrpl|)], text, b);
    SmallOffsets(0x20, 0x100);
    BigWordRoundTrip(mi.amount);
    BigWordRoundTrip(mi.price);
    WordRoundTrip(mi.expiresAt);
    WordRoundTrip(|mi.xrpl|);
    AddressesAt(b, mi);
    assert b[0x140..0x140 + |mi.xrpl|] == b[0x140..][..|mi.xrpl|];
  }

  lemma AddressesAt(b: seq<Byte>, mi: Instruction)
    requires |b| >= 0xa0
    requires b[0x40..0x60] == AddressWord(mi.escrow) && b[0x60..0x80] == AddressWord(mi.taker) &&
             b[0x80..0xa0] == AddressWord(mi.maker)
    ensures b[0x4c..0x60] == mi.escrow && b[0x6c..0x80] == mi.taker && b[0x8c..0xa0] == mi.maker
  {
    assert b[0x4c..0x60] == b[0x40..0x60][12..];
    assert b[0x6c..0x80] == b[0x60..0x80][12..];
    assert b[0x8c..0xa0] == b[0x80..0xa0][12..];
  }

  /**
   b holds mi at the offset `at` and its text at the offset `text`: each field a word of its own value,
   both offsets and the length below 2^64, and nothing beyond the end.
   */
  predicate Holds(b: seq<Byte>, at: nat, text: nat, mi: Instruction) {
    at < TWO64 && text < TWO64 && |mi.xrpl| < TWO64 && at + 0x100 <= |b| && at + text + 32 + |mi.xrpl| <= |b| &&
    b[at..at + 0x20] == mi.matchId && b[at + 0x20..at + 0x40] == AddressWord(mi.escrow) &&
    b[at + 0x40..at + 0x60] == AddressWord(mi.taker) && b[at + 0x60..at + 0x80] == AddressWord(mi.maker) &&
    FromBE(b[at + 0x80..at + 0xa0]) == mi.amount && FromBE(b[at + 0xa0..at + 0xc0]) == mi.price &&
    FromBE(b[at + 0xc0..at + 0xe0]) == text && FromBE(b[at + 0xe0..at + 0x100]) == mi.expiresAt &&
    FromBE(b[at + text..at + text + 32]) == |mi.xrpl| && b[at + text + 32..at + text + 32 + |mi.xrpl|] == mi.xrpl
  }

  /** The decoder accepts exactly the bytes that hold an instruction where their first word says. */
  lemma DecodesExactly(b: seq<Byte>, mi: Instruction)
    ensures DecodeInstruction(b) == Some(mi) <==>
            |b| >= 32 && exists text :: Holds(b, FromBE(b[..32]), text, mi)
  {
    if |b| >= 32 {
      var at := FromBE(b[..32]);
      assert WordAt(b, 0) == b[..32];
      if DecodeInstruction(b) == Some(mi) {
        DecodedHolds(b, at, mi);
      }
      if text :| Holds(b, at, text, mi) {
        HeldDecodes(b, at, text, mi);
      }
    }
  }

  lemma DecodedHolds(b: seq<Byte>, at: nat, mi: Instruction)
    requires |b| >= 32 && at == FromBE(WordAt(b, 0)) && DecodeInstruction(b) == Some(mi)
    ensures at + 0x100 <= |b| && Holds(b, at, FromBE(b[at + 0xc0..at + 0xe0]), mi)
  {
    AddressOfWord(WordAt(b, at + 0x20));
    AddressOfWord(WordAt(b, at + 0x40));
    AddressOfWord(WordAt(b, at + 0x60));
  }

  lemma AddressOfWord(w: Hash)
    ensures IsAddress(w) <==> AddressWord(w[12..]) == w
  {
    assert w[..12] + w[12..] == w;
    assert AddressWord(w[12..])[..12] == Zeros(12);
  }

  lemma HeldDecodes(b: seq<Byte>, at: nat, text: nat, mi: Instruction)
    requires |b| >= 32 && at == FromBE(WordAt(b, 0)) && Holds(b, at, text, mi)
    ensures DecodeInstruction(b) == Some(mi)
  {
    AddressWordRoundTrip(mi.escrow);
    AddressWordRoundTrip(mi.taker);
    AddressWordRoundTrip(mi.maker);
  }

  lemma EncodingIsInjective(a: Instruction, b: Instruction)
    requires InRange(a) && InRange(b)
    requires EncodeInstruction(a) == EncodeInstruction(b)
    ensures a == b
  {
    RoundTrip(a);
    RoundTrip(b);
  }
}
