/**
 The WD_MATCH_V1 signature: pre-image, digest, the two signing paths and the client's check.
 Keccak, signing and public-key recovery stay uninterpreted functions.
 */
module Signing {
  import opened Bytes
  import opened Results
  import opened Abi
  import Text

  type Keccak = seq<Byte> -> Hash

  /** crypto.SigToPub followed by PubkeyToAddress; None when recovery fails. */
  type Recovery = (Hash, seq<Byte>) -> Option<Address>

  /** What a sign port answers to a message; None when the call fails. */
  type SignPort = seq<Byte> -> Option<seq<Byte>>

  datatype SignedMatch = SignedMatch(
    instruction: Instruction, abiEncoded: seq<Byte>, dataHash: Hash, digest: Hash,
    signature: seq<Byte>, signer: Address)

  datatype SignError = NilNumber | PortFailed | BadSignatureLength | RecoverFailed | SignerMismatch(recovered: Address)

  function MatchTag(): Hash {
    Text.Ascii("WD_MATCH_V1") + Zeros(21)
  }

  /** The 96-byte message, appended piece by piece as wdMatchMessage does. */
  function MatchMessage(dataHash: Hash, chainId: Uint64): seq<Byte> {
    MatchTag() + LeftPad(MinimalBytes(chainId), 32) + dataHash
  }

  function PersonalPreimage(payloadHash: Hash): seq<Byte> {
    [0x19] + Text.Ascii("Ethereum Signed Message:\n32") + payloadHash
  }

  /** EIP-191: the digest a personal-sign of a 32-byte hash signs. */
  function PersonalDigest(keccak: Keccak, payloadHash: Hash): Hash {
    keccak(PersonalPreimage(payloadHash))
  }

  function EthSignedDigest(keccak: Keccak, dataHash: Hash, chainId: Uint64): Hash {
    PersonalDigest(keccak, keccak(MatchMessage(dataHash, chainId)))
  }

  /** The payload hash of the local path: the ABI encoding of (tag, chain id, data hash), hashed. */
  function PayloadHash(keccak: Keccak, dataHash: Hash, chainId: Uint64): Hash {
    keccak(EncodeArguments(Statics([MatchTag(), Word(chainId), dataHash])))
  }

  // ---- the recovery id, byte 64 ----

  function ShiftUp(sig: seq<Byte>): seq<Byte>
    requires |sig| == 65
  {
    if sig[64] < 27 then sig[64 := sig[64] + 27] else sig
  }

  function ShiftDown(sig: seq<Byte>): seq<Byte>
    requires |sig| == 65
  {
    if sig[64] >= 27 then sig[64 := sig[64] - 27] else sig
  }

  /** The two normalisations undo each other exactly when the signer's own V is below 27. */
  lemma ShiftsUndo(sig: seq<Byte>)
    requires |sig| == 65
    ensures ShiftDown(ShiftUp(sig)) == sig <==> sig[64] < 27
  {
    var up := ShiftUp(sig);
    assert sig[64] >= 27 ==> ShiftDown(up)[64] == sig[64] - 27;
    assert sig[64] < 27 ==> ShiftDown(up) == sig;
  }

  // ---- signing ----

  /** Sign and SignWithFunc after the raw signature has come back. */
  function Assemble(keccak: Keccak, recover: Recovery, mi: Instruction, chainId: Uint64, reply: Option<seq<Byte>>)
    : (r: Result<SignedMatch, SignError>)
  {
    match reply
    case None => Err(PortFailed)
    case Some(raw) =>
      if |raw| != 65 then Err(BadSignatureLength)
      else
        var data := EncodeInstruction(mi);
        var sig := ShiftUp(raw);
        var digest := EthSignedDigest(keccak, keccak(data), chainId);
        match recover(digest, ShiftDown(sig))
        case None => Err(RecoverFailed)
        case Some(signer) => Ok(SignedMatch(mi, data, keccak(data), digest, sig, signer))
  }

  /** SignWithFunc: the message goes to the port, the reply's last byte is normalised in a copy. */
  method SignWithFunc(keccak: Keccak, recover: Recovery, mi: Instruction, chainId: Uint64, port: SignPort)
    returns (r: Result<SignedMatch, SignError>)
    ensures r == Assemble(keccak, recover, mi, chainId, port(MatchMessage(keccak(EncodeInstruction(mi)), chainId)))
  {
    var abiEncoded := EncodeInstruction(mi);
    var dataHash := keccak(abiEncoded);
    var message := MatchTag();
    message := message + LeftPad(MinimalBytes(chainId), 32);
    message := message + dataHash;
    var reply := port(message);
    if reply.None? {
      return Err(PortFailed);
    }
    var sig := reply.value;
    if |sig| != 65 {
      return Err(BadSignatureLength);
    }
    if sig[64] < 27 {
      sig := sig[64 := sig[64] + 27];
    }
    var digest := EthSignedDigest(keccak, dataHash, chainId);
    var signer := recover(digest, ShiftDown(sig));
    if signer.None? {
      return Err(RecoverFailed);
    }
    return Ok(SignedMatch(mi, abiEncoded, dataHash, digest, sig, signer.value));
  }

  /** A private key: the raw signature, V in {0, 1}, that utils.Sign makes over a digest. */
  type Key = Hash -> seq<Byte>

  /** Sign: the local path, hashing the ABI-encoded payload itself. */
  function SignLocally(keccak: Keccak, recover: Recovery, mi: Instruction, chainId: Uint64, key: Key)
    : Result<SignedMatch, SignError>
  {
    var payloadHash := PayloadHash(keccak, keccak(EncodeInstruction(mi)), chainId);
    Assemble(keccak, recover, mi, chainId, Some(key(PersonalDigest(keccak, payloadHash))))
  }

  /** The real sign port: it hashes the message it is posted, then personal-signs that hash. */
  function HashingPort(keccak: Keccak, key: Key): SignPort {
    (message: seq<Byte>) => Some(key(PersonalDigest(keccak, keccak(message))))
  }

  /** The hand-built message is the ABI encoding of its three words. */
  lemma MessageIsAbiEncoding(dataHash: Hash, chainId: Uint64)
    ensures MatchMessage(dataHash, chainId) == EncodeArguments(Statics([MatchTag(), Word(chainId), dataHash]))
    ensures |MatchMessage(dataHash, chainId)| == 96
  {
    StaticArguments([MatchTag(), Word(chainId), dataHash]);
    Pow256Values();
    PaddedMinimalBytes(chainId, 32);
    var last := [dataHash];
    FlatCons(dataHash, []);
    assert last + [] == last;
    FlatCons(Word(chainId), last);
    FlatCons(MatchTag(), [Word(chainId)] + last);
    assert [MatchTag()] + ([Word(chainId)] + last) == [MatchTag(), Word(chainId), dataHash];
  }

  /** The tag and the personal-sign prefix, byte for byte. */
  lemma TagAndPrefix()
    ensures MatchTag() == [0x57, 0x44, 0x5f, 0x4d, 0x41, 0x54, 0x43, 0x48, 0x5f, 0x56, 0x31] + Zeros(21)
    ensures Text.Ascii("Ethereum Signed Message:\n32") ==
            [0x45, 0x74, 0x68, 0x65, 0x72, 0x65, 0x75, 0x6d, 0x20, 0x53, 0x69, 0x67, 0x6e, 0x65, 0x64, 0x20] +
            [0x4d, 0x65, 0x73, 0x73, 0x61, 0x67, 0x65, 0x3a, 0x0a, 0x33, 0x32]
  {
  }

  /** Where the tag, the chain and the data lie in the 96 bytes that are hashed. */
  lemma MessageAt(dataHash: Hash, chainId: Uint64)
    ensures var m := MatchMessage(dataHash, chainId);
            |m| == 96 && m[..32] == MatchTag() && FromBE(m[32..64]) == chainId && m[64..] == dataHash
  {
    Pow256Values();
    PaddedMinimalBytes(chainId, 32);
    WordRoundTrip(chainId);
    var m := MatchMessage(dataHash, chainId);
    assert m[32..64] == Word(chainId);
  }

  /**
   Two matches that differ, or are for different chains, share a digest, and so a signature, only where
   keccak collides on their data, on their messages or on what personal-sign hashes.
   */
  lemma SharedMatchDigestIsACollision(keccak: Keccak, a: seq<Byte>, c: Uint64, b: seq<Byte>, d: Uint64)
    ensures var x, y := MatchMessage(keccak(a), c), MatchMessage(keccak(b), d);
            (x == y <==> c == d && keccak(a) == keccak(b)) &&
            (EthSignedDigest(keccak, keccak(a), c) == EthSignedDigest(keccak, keccak(b), d) <==>
             x == y || keccak(x) == keccak(y) ||
             keccak(PersonalPreimage(keccak(x))) == keccak(PersonalPreimage(keccak(y)))) &&
            (PersonalPreimage(keccak(x)) == PersonalPreimage(keccak(y)) <==> keccak(x) == keccak(y))
  {
    MessageAt(keccak(a), c);
    MessageAt(keccak(b), d);
    PrefixedAgree(Text.Ascii("Ethereum Signed Message:\n32"), keccak(MatchMessage(keccak(a), c)),
                  keccak(MatchMessage(keccak(b), d)));
  }

  lemma PrefixedAgree(prefix: seq<Byte>, x: Hash, y: Hash)
    ensures [0x19] + prefix + x == [0x19] + prefix + y <==> x == y
  {
    assert ([0x19] + prefix + x)[|prefix| + 1..] == x;
    assert ([0x19] + prefix + y)[|prefix| + 1..] == y;
  }

  /** Signing through the port gives the very bytes of signing with the key. */
  lemma PathsAgree(keccak: Keccak, recover: Recovery, mi: Instruction, chainId: Uint64, key: Key)
    ensures Assemble(keccak, recover, mi, chainId,
                     HashingPort(keccak, key)(MatchMessage(keccak(EncodeInstruction(mi)), chainId)))
            == SignLocally(keccak, recover, mi, chainId, key)
  {
    MessageIsAbiEncoding(keccak(EncodeInstruction(mi)), chainId);
  }

  /** recover inverts the key: it finds signer behind every raw signature, and V is 0 or 1. */
  ghost predicate KeyOf(key: Key, recover: Recovery, signer: Address) {
    forall digest: Hash :: |key(digest)| == 65 && key(digest)[64] < 2 && recover(digest, key(digest)) == Some(signer)
  }

  // ---- the client's own check (matchsig) ----

  function VerifyMatch(keccak: Keccak, recover: Recovery, abiEncoded: seq<Byte>, signature: seq<Byte>,
                       chainId: Uint64, expected: Address): Result<Address, SignError>
  {
    if |signature| != 65 then Err(BadSignatureLength)
    else
      match recover(EthSignedDigest(keccak, keccak(abiEncoded), chainId), ShiftDown(signature))
      case None => Err(RecoverFailed)
      case Some(a) => if a == expected then Ok(a) else Err(SignerMismatch(a))
  }

  /** The client accepts every signed match with the signer it names, and with no other. */
  lemma ClientAcceptsExactlyTheSigner(keccak: Keccak, recover: Recovery, mi: Instruction, chainId: Uint64,
                                      reply: Option<seq<Byte>>, expected: Address)
    requires Assemble(keccak, recover, mi, chainId, reply).Ok?
    ensures var m := Assemble(keccak, recover, mi, chainId, reply).value;
            VerifyMatch(keccak, recover, m.abiEncoded, m.signature, chainId, expected).Ok? <==> expected == m.signer
  {
  }

  /** With a genuine key both paths succeed, name the key's owner, and carry V in {27, 28}. */
  lemma GenuineKeySigns(keccak: Keccak, recover: Recovery, mi: Instruction, chainId: Uint64, key: Key, signer: Address)
    requires KeyOf(key, recover, signer)
    ensures var r := SignLocally(keccak, recover, mi, chainId, key);
            r.Ok? && r.value.signer == signer && r.value.signature[64] in {27, 28} &&
            VerifyMatch(keccak, recover, EncodeInstruction(mi), r.value.signature, chainId, signer) == Ok(signer)
  {
    var dataHash := keccak(EncodeInstruction(mi));
    MessageIsAbiEncoding(dataHash, chainId);
    var raw := key(EthSignedDigest(keccak, dataHash, chainId));
    ShiftsUndo(raw);
    assert recover(EthSignedDigest(keccak, dataHash, chainId), raw) == Some(signer);
  }
}
