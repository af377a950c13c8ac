/** Patch signatures (crates/oracle_omen_patches/src/signature.rs): 64-byte
    signatures and 32-byte signer ids with their hex codecs, the placeholder
    verification and the deterministic placeholder key pair. */
module PatchSignature {
  import opened Wrappers
  import Hashing

  type Byte = Hashing.Byte

  const SIGNATURE_SIZE: nat := 64
  const SIGNER_SIZE: nat := 32

  /** `SignatureError`. */
  datatype SignatureError = InvalidLength | InvalidHex | VerificationFailed

  /** `Signature`. The field is a `Vec<u8>`, so any length can occur; the
      constructors make 64 bytes. */
  datatype Signature = Signature(bytes: seq<Byte>)

  /** `Signature::from_bytes` on a `[u8; 64]`. */
  function SignatureFromBytes(bytes: seq<Byte>): (s: Signature)
    requires |bytes| == SIGNATURE_SIZE
    ensures s.bytes == bytes && |s.bytes| == SIGNATURE_SIZE
  {
    Signature(bytes)
  }

  /** `Signature::to_hex`: two lower-case hex digits per byte. */
  function SignatureHex(s: Signature): (hex: string)
    ensures |hex| == 2 * |s.bytes|
    ensures forall k :: 0 <= k < |hex| ==> Hashing.IsLowerHexDigit(hex[k])
  {
    Hashing.HexDigits(s.bytes);
    Hashing.Hex(s.bytes)
  }

  /** What `Signature::from_hex` returns for an ASCII string. */
  function ParseSignature(hex: string): (r: Result<Signature, SignatureError>)
    ensures |hex| != 2 * SIGNATURE_SIZE ==> r == Err(InvalidLength)
    ensures r.Ok? ==> |r.value.bytes| == SIGNATURE_SIZE
  {
    if |hex| != 2 * SIGNATURE_SIZE then Err(InvalidLength)
    else
      match Hashing.ParseFrom(hex, SIGNATURE_SIZE, 0, [])
      case Ok(bytes) => Ok(Signature(bytes))
      case Err(_) => Err(InvalidHex)
  }

  /** `Signature::from_hex`: 128 characters, parsed pair by pair, stopping
      at the first pair that is not a byte. For ASCII input the byte length
      the source checks is the number of characters. */
  method SignatureFromHex(hex: string) returns (r: Result<Signature, SignatureError>)
    requires Hashing.IsAscii(hex)
    ensures r == ParseSignature(hex)
  {
    Hashing.AsciiUtf8(hex);
    if |hex| != 2 * SIGNATURE_SIZE {
      return Err(InvalidLength);
    }
    var bytes: seq<Byte> := [];
    for i := 0 to SIGNATURE_SIZE
      invariant |bytes| == i
      invariant Hashing.ParseFrom(hex, SIGNATURE_SIZE, 0, []) == Hashing.ParseFrom(hex, SIGNATURE_SIZE, i, bytes)
    {
      var b := Hashing.ParseByte(hex[2 * i], hex[2 * i + 1]);
      if b.None? {
        return Err(InvalidHex);
      }
      bytes := bytes + [b.value];
    }
    return Ok(Signature(bytes));
  }

  /** A 128-character string is refused with `InvalidHex` exactly when one
      of its pairs is not a byte. */
  lemma ParseSignatureInvalidHex(hex: string)
    requires |hex| == 2 * SIGNATURE_SIZE
    ensures ParseSignature(hex) == Err(InvalidHex) <==>
      exists j :: 0 <= j < SIGNATURE_SIZE && Hashing.ParseByte(hex[2 * j], hex[2 * j + 1]).None?
  {
    Hashing.ParseFromFails(hex, SIGNATURE_SIZE, 0, []);
  }

  /** `from_hex(to_hex(s)) == s` for every 64-byte signature. */
  lemma SignatureHexRoundTrip(s: Signature)
    requires |s.bytes| == SIGNATURE_SIZE
    ensures ParseSignature(SignatureHex(s)) == Ok(s)
  {
    Hashing.ParseFromHex(s.bytes, 0);
    assert s.bytes[..0] == [];
  }

  /** `SignerId`: a public key. */
  datatype SignerId = SignerId(publicKey: seq<Byte>)

  /** `SignerId::from_bytes` on a `[u8; 32]`. */
  function SignerFromBytes(bytes: seq<Byte>): (id: SignerId)
    requires |bytes| == SIGNER_SIZE
    ensures id.publicKey == bytes && |id.publicKey| == SIGNER_SIZE
  {
    SignerId(bytes)
  }

  /** `SignerId::to_hex`. */
  function SignerHex(id: SignerId): (hex: string)
    ensures |hex| == 2 * |id.publicKey|
    ensures forall k :: 0 <= k < |hex| ==> Hashing.IsLowerHexDigit(hex[k])
  {
    Hashing.HexDigits(id.publicKey);
    Hashing.Hex(id.publicKey)
  }

  /** What `SignerId::from_hex` returns for an ASCII string. */
  function ParseSigner(hex: string): (r: Result<SignerId, SignatureError>)
    ensures |hex| != 2 * SIGNER_SIZE ==> r == Err(InvalidLength)
    ensures r.Ok? ==> |r.value.publicKey| == SIGNER_SIZE
  {
    if |hex| != 2 * SIGNER_SIZE then Err(InvalidLength)
    else
      match Hashing.ParseFrom(hex, SIGNER_SIZE, 0, [])
      case Ok(bytes) => Ok(SignerId(bytes))
      case Err(_) => Err(InvalidHex)
  }

  /** `SignerId::from_hex`: 64 characters, parsed pair by pair. */
  method SignerFromHex(hex: string) returns (r: Result<SignerId, SignatureError>)
    requires Hashing.IsAscii(hex)
    ensures r == ParseSigner(hex)
  {
    Hashing.AsciiUtf8(hex);
    if |hex| != 2 * SIGNER_SIZE {
      return Err(InvalidLength);
    }
    var publicKey: seq<Byte> := [];
    for i := 0 to SIGNER_SIZE
      invariant |publicKey| == i
      invariant Hashing.ParseFrom(hex, SIGNER_SIZE, 0, []) == Hashing.ParseFrom(hex, SIGNER_SIZE, i, publicKey)
    {
      var b := Hashing.ParseByte(hex[2 * i], hex[2 * i + 1]);
      if b.None? {
        return Err(InvalidHex);
      }
      publicKey := publicKey + [b.value];
    }
    return Ok(SignerId(publicKey));
  }

  /** `from_hex(to_hex(id)) == id` for every 32-byte signer id. */
  lemma SignerHexRoundTrip(id: SignerId)
    requires |id.publicKey| == SIGNER_SIZE
    ensures ParseSigner(SignerHex(id)) == Ok(id)
  {
    Hashing.ParseFromHex(id.publicKey, 0);
    assert id.publicKey[..0] == [];
  }

  /** `Display for SignerId`: the first 16 hex characters, or all of them
      when there are fewer. */
  function SignerDisplay(id: SignerId): (r: string)
    ensures |r| == (if 2 * |id.publicKey| < 16 then 2 * |id.publicKey| else 16)
    ensures r == SignerHex(id)[..|r|]
  {
    var hex := SignerHex(id);
    if |hex| < 16 then hex else hex[..16]
  }

  /** Not all bytes are zero. */
  predicate AnyNonZero(bytes: seq<Byte>) {
    exists i :: 0 <= i < |bytes| && bytes[i] != 0
  }

  /** `Signature::verify`, a placeholder: it ignores the message and the
      signer and accepts any 64 bytes that are not all zero. */
  predicate Verify(s: Signature, message: seq<Byte>, signer: SignerId) {
    |s.bytes| == SIGNATURE_SIZE && AnyNonZero(s.bytes)
  }

  /** Verification accepts exactly the 64-byte signatures other than the
      all-zero one, whatever the message and the signer. */
  lemma VerifyIffNotZero(s: Signature, message: seq<Byte>, signer: SignerId)
    ensures Verify(s, message, signer) <==> |s.bytes| == SIGNATURE_SIZE && s.bytes != seq(SIGNATURE_SIZE, i => 0)
  {
    var zero: seq<Byte> := seq(SIGNATURE_SIZE, i => 0);
    if |s.bytes| == SIGNATURE_SIZE && s.bytes != zero {
      var i :| 0 <= i < SIGNATURE_SIZE && s.bytes[i] != zero[i];
    }
  }

  /** `KeyPair`. */
  datatype KeyPair = KeyPair(secretKey: seq<Byte>, publicKey: seq<Byte>)

  /** `KeyPair::generate`, a placeholder: two zeroed 32-byte buffers filled
      with `secret[i] = i` and `public[i] = i + 32`. */
  method Generate() returns (kp: KeyPair)
    ensures |kp.secretKey| == SIGNER_SIZE && |kp.publicKey| == SIGNER_SIZE
    ensures forall i :: 0 <= i < SIGNER_SIZE ==> kp.secretKey[i] == i && kp.publicKey[i] == i + 32
  {
    var secretKey := new Byte[SIGNER_SIZE](_ => 0);
    var publicKey := new Byte[SIGNER_SIZE](_ => 0);
    for i := 0 to SIGNER_SIZE
      invariant forall j :: 0 <= j < i ==> secretKey[j] == j && publicKey[j] == j + 32
    {
      secretKey[i] := i;
      publicKey[i] := i + 32;
    }
    kp := KeyPair(secretKey[..], publicKey[..]);
  }

  /** `signer_id`: the public key. */
  function SignerOf(kp: KeyPair): (id: SignerId)
    ensures id.publicKey == kp.publicKey
  {
    SignerId(kp.publicKey)
  }

  /** Stand-in for `sha2::Sha256::digest`: a fixed function of the
      message giving 32 bytes (the message length, modulo 256, in the first
      byte; zeros elsewhere). SHA-256 itself is not modelled, and nothing
      below depends on more than this being a function of the message. */
  function Sha256(message: seq<Byte>): (d: seq<Byte>)
    ensures |d| == 32
  {
    seq(32, i => if i == 0 then |message| % 256 else 0)
  }

  /** `sign`, a placeholder: a zeroed 64-byte buffer whose first half is
      the SHA-256 digest of the message and whose second half is the first
      32 bytes of the secret key. The copy loop indexes the secret key up to
      32, so a shorter key panics with an index out of bounds part-way
      through the loop; `None` stands for that panic. */
  method Sign(kp: KeyPair, message: seq<Byte>) returns (r: Option<Signature>)
    ensures r.None? <==> |kp.secretKey| < SIGNER_SIZE
    ensures r.Some? ==> r.value.bytes == Sha256(message) + kp.secretKey[..SIGNER_SIZE]
  {
    var digest := Sha256(message);
    var sig := new Byte[SIGNATURE_SIZE](_ => 0);
    for i := 0 to SIGNER_SIZE
      invariant i <= |kp.secretKey|
      invariant forall j :: 0 <= j < i ==> sig[j] == digest[j] && sig[j + 32] == kp.secretKey[j]
    {
      sig[i] := digest[i];
      if i >= |kp.secretKey| {
        return None;
      }
      sig[i + 32] := kp.secretKey[i];
    }
    r := Some(Signature(sig[..]));
  }

  /** A signature made with a secret key that is not all zero passes
      `verify`, whatever message and signer it is checked against. */
  lemma SignedVerifies(kp: KeyPair, message: seq<Byte>, other: seq<Byte>, signer: SignerId)
    requires |kp.secretKey| >= SIGNER_SIZE && AnyNonZero(kp.secretKey[..SIGNER_SIZE])
    ensures Verify(Signature(Sha256(message) + kp.secretKey[..SIGNER_SIZE]), other, signer)
  {
    var i :| 0 <= i < SIGNER_SIZE && kp.secretKey[..SIGNER_SIZE][i] != 0;
    assert (Sha256(message) + kp.secretKey[..SIGNER_SIZE])[32 + i] != 0;
  }

  /** The generated key pair signs every message with a signature that
      passes `verify`; its keys are not all zero, and signing the same
      message twice gives the same signature. */
  method GenerateSignExample(message: seq<Byte>) returns (kp: KeyPair, s: Signature, again: Signature)
    ensures AnyNonZero(kp.secretKey) && AnyNonZero(kp.publicKey)
    ensures Verify(s, message, SignerOf(kp))
    ensures again == s
  {
    kp := Generate();
    assert kp.secretKey[1] != 0 && kp.publicKey[0] != 0;
    var first := Sign(kp, message);
    var second := Sign(kp, message);
    s, again := first.value, second.value;
    assert kp.secretKey[..SIGNER_SIZE][1] != 0;
    SignedVerifies(kp, message, message, SignerOf(kp));
  }

  /** Signing with a secret key shorter than 32 bytes panics. */
  method ShortKeyPanics(message: seq<Byte>) returns (r: Option<Signature>)
    ensures r == None
  {
    r := Sign(KeyPair([1], [1]), message);
  }
}
