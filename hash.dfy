/** Content hashes (crates/oracle_omen_core/src/hash.rs): 32-byte digests,
    their lower-case hex form, and the combination of several hashes into one.
    The digest function itself (BLAKE3) and `serde_json` canonicalisation are
    not modelled: `Digest` stands for BLAKE3 and nothing in the model depends
    on its definition beyond the fact that it is a function. */
module Hashing {
  import opened Wrappers
  import Text

  type Byte = x: int | 0 <= x < 256

  const HASH_SIZE: nat := 32
  const HEX_HASH_SIZE: nat := 64

  /** `struct Hash([u8; 32])`. */
  type Hash = s: seq<Byte> | |s| == HASH_SIZE witness seq(32, i => 0)

  datatype HashError = InvalidFormat(message: string) | ComputationFailed(message: string)

  // ---------------------------------------------------------------------
  // Digest stand-in and canonical serialisation

  /** Stand-in for `blake3::hash`: a fixed function of the input bytes
      (their length, modulo 256, in the first byte; zeros elsewhere). No
      lemma of the model depends on this definition, only on the fact that
      equal inputs give equal digests; in particular it is never assumed to
      be injective. */
  function Digest(data: seq<Byte>): Hash {
    Zero()[0 := |data| % 256]
  }

  /** `Hash::from_bytes`. */
  function FromBytes(data: seq<Byte>): Hash {
    Digest(data)
  }

  /** `Hash::from_str`: the digest of the UTF-8 encoding. */
  function FromStr(s: string): Hash {
    FromBytes(Utf8(s))
  }

  /** UTF-8 encoding of one Unicode scalar value. */
  function Utf8Char(c: char): (r: seq<Byte>)
    ensures 1 <= |r| <= 4
  {
    var n := c as int;
    if n < 0x80 then [n]
    else if n < 0x800 then [0xC0 + n / 64, 0x80 + n % 64]
    else if n < 0x10000 then [0xE0 + n / 4096, 0x80 + (n / 64) % 64, 0x80 + n % 64]
    else [0xF0 + n / 262144, 0x80 + (n / 4096) % 64, 0x80 + (n / 64) % 64, 0x80 + n % 64]
  }

  /** `str::as_bytes`. */
  function Utf8(s: string): (r: seq<Byte>)
    ensures |r| >= |s|
  {
    if s == [] then [] else Utf8Char(s[0]) + Utf8(s[1..])
  }

  predicate IsAscii(s: string) {
    forall i :: 0 <= i < |s| ==> s[i] as int < 0x80
  }

  lemma {:induction false} AsciiUtf8(s: string)
    requires IsAscii(s)
    ensures Utf8(s) == seq(|s|, i requires 0 <= i < |s| => s[i] as int)
  {
    if s != [] {
      assert IsAscii(s[1..]) by {
        forall i | 0 <= i < |s[1..]| ensures s[1..][i] as int < 0x80 { assert s[1..][i] == s[i + 1]; }
      }
      AsciiUtf8(s[1..]);
    }
  }

  /** The JSON value a `serde::Serialize` implementation produces. Struct
      fields keep declaration order; `BTreeMap`s are objects in key order. */
  datatype Json =
    | JNull
    | JBool(b: bool)
    | JInt(i: int)
    | JStr(s: string)
    | JArr(items: seq<Json>)
    | JObj(fields: seq<Field>)

  datatype Field = Field(name: string, value: Json)

  /** Compact JSON text (strings are written without escaping). */
  function Render(j: Json): string
    decreases j, 1
  {
    match j
    case JNull => "null"
    case JBool(b) => if b then "true" else "false"
    case JInt(i) => if i < 0 then "-" + Text.Decimal(-i) else Text.Decimal(i)
    case JStr(s) => "\"" + s + "\""
    case JArr(items) => "[" + RenderItems(j, items) + "]"
    case JObj(fields) => "{" + RenderFields(j, fields) + "}"
  }

  function RenderItems(ghost parent: Json, items: seq<Json>): string
    requires forall k :: 0 <= k < |items| ==> items[k] < parent
    decreases parent, 0, |items|
  {
    if items == [] then ""
    else Render(items[0]) + (if |items| > 1 then "," else "") + RenderItems(parent, items[1..])
  }

  function RenderFields(ghost parent: Json, fields: seq<Field>): string
    requires forall k :: 0 <= k < |fields| ==> fields[k].value < parent
    decreases parent, 0, |fields|
  {
    if fields == [] then ""
    else
      "\"" + fields[0].name + "\":" + Render(fields[0].value)
      + (if |fields| > 1 then "," else "") + RenderFields(parent, fields[1..])
  }

  /** `Hash::from_canonical`: the digest of the canonical JSON bytes. */
  function FromCanonical(j: Json): Hash {
    FromBytes(Utf8(Render(j)))
  }

  /** A `Hash` serialises as its hex string. */
  function HashJson(h: Hash): Json {
    JStr(Hex(h))
  }

  function OptionJson(o: Option<Json>): Json {
    match o
    case None => JNull
    case Some(j) => j
  }

  function StringsJson(ss: seq<string>): Json {
    JArr(seq(|ss|, k requires 0 <= k < |ss| => JStr(ss[k])))
  }

  /** A `BTreeMap<String, String>` as a JSON object in ascending key order. */
  function StringMapJson(m: map<string, string>): Json {
    var keys := Text.Sorted(m.Keys);
    JObj(seq(|keys|, k requires 0 <= k < |keys| => Field(keys[k], JStr(m[keys[k]]))))
  }

  // ---------------------------------------------------------------------
  // Zero hash

  /** `Hash::zero`. */
  function Zero(): Hash {
    seq(32, i => 0)
  }

  /** `Hash::is_zero`: every byte is 0. */
  predicate IsZero(h: Hash) {
    forall i :: 0 <= i < |h| ==> h[i] == 0
  }

  lemma IsZeroIffZero(h: Hash)
    ensures IsZero(h) <==> h == Zero()
  {
  }

  // ---------------------------------------------------------------------
  // Hex encoding

  /** A lower-case hex digit, as `{:x}` writes it. */
  predicate IsLowerHexDigit(c: char) {
    '0' <= c <= '9' || 'a' <= c <= 'f'
  }

  function HexDigit(n: int): (c: char)
    requires 0 <= n < 16
    ensures IsLowerHexDigit(c)
  {
    if n < 10 then ('0' as int + n) as char else ('a' as int + n - 10) as char
  }

  /** `format!("{:02x}", b)`. */
  function ByteHex(b: Byte): string {
    [HexDigit(b / 16), HexDigit(b % 16)]
  }

  /** The hex text `to_hex` builds: two characters per byte, in byte order. */
  function Hex(bytes: seq<Byte>): (s: string)
    ensures |s| == 2 * |bytes|
  {
    if bytes == [] then "" else ByteHex(bytes[0]) + Hex(bytes[1..])
  }

  /** `Hash::to_hex`, which writes each byte in turn into a growing string. */
  method ToHex(h: Hash) returns (hex: string)
    ensures hex == Hex(h)
  {
    hex := "";
    var i := 0;
    while i < HASH_SIZE
      invariant 0 <= i <= HASH_SIZE
      invariant hex == Hex(h[..i])
    {
      HexAppend(h[..i], h[i]);
      assert h[..i + 1] == h[..i] + [h[i]];
      hex := hex + ByteHex(h[i]);
      i := i + 1;
    }
    assert h[..HASH_SIZE] == h;
  }

  lemma {:induction false} HexAppend(bytes: seq<Byte>, b: Byte)
    ensures Hex(bytes + [b]) == Hex(bytes) + ByteHex(b)
    decreases |bytes|
  {
    if bytes == [] {
      assert [b][1..] == [];
    } else {
      assert (bytes + [b])[1..] == bytes[1..] + [b];
      HexAppend(bytes[1..], b);
    }
  }

  lemma {:induction false} HexAt(bytes: seq<Byte>, i: int)
    requires 0 <= i < |bytes|
    ensures Hex(bytes)[2 * i] == HexDigit(bytes[i] / 16)
    ensures Hex(bytes)[2 * i + 1] == HexDigit(bytes[i] % 16)
    decreases |bytes|
  {
    if i > 0 { HexAt(bytes[1..], i - 1); }
  }

  /** Every character of `to_hex` is a lower-case hex digit, and the text
      has 64 characters. */
  lemma ToHexShape(h: Hash)
    ensures |Hex(h)| == HEX_HASH_SIZE
    ensures forall k :: 0 <= k < |Hex(h)| ==> IsLowerHexDigit(Hex(h)[k])
  {
    HexDigits(h);
  }

  /** Hex text is made of lower-case hex digits only. */
  lemma HexDigits(bytes: seq<Byte>)
    ensures forall k :: 0 <= k < |Hex(bytes)| ==> IsLowerHexDigit(Hex(bytes)[k])
  {
    forall k | 0 <= k < |Hex(bytes)| ensures IsLowerHexDigit(Hex(bytes)[k]) {
      HexAt(bytes, k / 2);
      if k % 2 == 0 { assert k == 2 * (k / 2); } else { assert k == 2 * (k / 2) + 1; }
    }
  }

  /** The hex of the zero hash is 64 `'0'` characters. */
  lemma ZeroHex()
    ensures Hex(Zero()) == seq(64, k => '0')
  {
    HexZeros(32);
  }

  lemma {:induction false} HexZeros(n: nat)
    ensures Hex(seq(n, i => 0 as Byte)) == seq(2 * n, k => '0')
    decreases n
  {
    if n > 0 {
      var z: seq<Byte> := seq(n, i => 0 as Byte);
      assert z[1..] == seq(n - 1, i => 0 as Byte);
      HexZeros(n - 1);
      assert ByteHex(z[0]) == "00";
      assert seq(2 * n, k => '0') == "00" + seq(2 * (n - 1), k => '0');
    }
  }

  // ---------------------------------------------------------------------
  // Hex decoding

  /** The value of one digit in base 16, either case. */
  function DigitValue(c: char): (r: Option<int>)
    ensures r.Some? ==> 0 <= r.value < 16
  {
    if '0' <= c <= '9' then Some(c as int - '0' as int)
    else if 'a' <= c <= 'f' then Some(c as int - 'a' as int + 10)
    else if 'A' <= c <= 'F' then Some(c as int - 'A' as int + 10)
    else None
  }

  /** `u8::from_str_radix(s, 16)` on a two-character string: an optional
      leading `+` followed by one digit, or two digits. */
  function ParseByte(a: char, b: char): Option<Byte> {
    if a == '+' then
      match DigitValue(b)
      case Some(v) => Some(v)
      case None => None
    else
      match (DigitValue(a), DigitValue(b))
      case (Some(x), Some(y)) => Some(16 * x + y)
      case _ => None
  }

  /** Parsing pairs `i..n` of a `2n`-character string after pairs `0..i`
      gave `done`: all `n` bytes, or the index of the first pair that is not
      a byte. */
  function ParseFrom(s: string, n: nat, i: nat, done: seq<Byte>): (r: Result<seq<Byte>, nat>)
    requires |s| == 2 * n && i <= n && |done| == i
    ensures r.Ok? ==> |r.value| == n && r.value[..i] == done
    ensures r.Err? ==> i <= r.error < n
    decreases n - i
  {
    if i == n then Ok(done)
    else
      match ParseByte(s[2 * i], s[2 * i + 1])
      case None => Err(i)
      case Some(b) =>
        var r := ParseFrom(s, n, i + 1, done + [b]);
        assert r.Ok? ==> r.value[..i] == (done + [b])[..i];
        r
  }

  /** Parsing fails exactly when some remaining pair is not a byte. */
  lemma {:induction false} ParseFromFails(s: string, n: nat, i: nat, done: seq<Byte>)
    requires |s| == 2 * n && i <= n && |done| == i
    ensures ParseFrom(s, n, i, done).Err? <==> exists j :: i <= j < n && ParseByte(s[2 * j], s[2 * j + 1]).None?
    decreases n - i
  {
    if i < n {
      match ParseByte(s[2 * i], s[2 * i + 1])
      case None =>
      case Some(b) =>
        ParseFromFails(s, n, i + 1, done + [b]);
    }
  }

  function WrongLength(len: nat): HashError {
    InvalidFormat("Expected 64 chars, got " + Text.Decimal(len))
  }

  function BadPair(i: nat): HashError {
    InvalidFormat("Invalid hex at position " + Text.Decimal(2 * i))
  }

  /** What `Hash::from_hex` returns for an ASCII string. */
  function ParseHex(s: string): (r: Result<Hash, HashError>)
    ensures |s| != HEX_HASH_SIZE ==> r == Err(WrongLength(|s|))
  {
    if |s| != HEX_HASH_SIZE then Err(WrongLength(|s|))
    else
      match ParseFrom(s, HASH_SIZE, 0, [])
      case Ok(bytes) => Ok(bytes)
      case Err(i) => Err(BadPair(i))
  }

  /** `Hash::from_hex`, which fills the 32 bytes pair by pair and stops at the
      first pair that does not parse. For ASCII input the byte length that the
      source checks is the number of characters. */
  method FromHex(hex: string) returns (r: Result<Hash, HashError>)
    requires IsAscii(hex)
    ensures r == ParseHex(hex)
  {
    AsciiUtf8(hex);
    if |hex| != HEX_HASH_SIZE {
      return Err(WrongLength(|hex|));
    }
    var bytes: seq<Byte> := [];
    var i := 0;
    while i < HASH_SIZE
      invariant 0 <= i <= HASH_SIZE && |bytes| == i
      invariant ParseFrom(hex, HASH_SIZE, 0, []) == ParseFrom(hex, HASH_SIZE, i, bytes)
    {
      var b := ParseByte(hex[2 * i], hex[2 * i + 1]);
      if b.None? {
        return Err(BadPair(i));
      }
      bytes := bytes + [b.value];
      i := i + 1;
    }
    return Ok(bytes);
  }

  /** Parsing the hex text of any byte string gives the bytes back. */
  lemma {:induction false} ParseFromHex(bytes: seq<Byte>, i: nat)
    requires i <= |bytes|
    ensures ParseFrom(Hex(bytes), |bytes|, i, bytes[..i]) == Ok(bytes)
    decreases |bytes| - i
  {
    if i < |bytes| {
      HexAt(bytes, i);
      var hi, lo := bytes[i] / 16, bytes[i] % 16;
      assert DigitValue(HexDigit(hi)) == Some(hi);
      assert DigitValue(HexDigit(lo)) == Some(lo);
      var s := Hex(bytes);
      assert ParseByte(s[2 * i], s[2 * i + 1]) == Some(bytes[i]);
      ParseFromHex(bytes, i + 1);
      assert bytes[..i] + [bytes[i]] == bytes[..i + 1];
    } else {
      assert bytes[..i] == bytes;
    }
  }

  /** `from_hex(to_hex(h)) == h` for every hash. */
  lemma HexRoundTrip(h: Hash)
    ensures ParseHex(Hex(h)) == Ok(h)
  {
    ParseFromHex(h, 0);
    assert h[..0] == [];
  }

  /** The converse round trip fails: `from_hex` also accepts upper-case digits
      and a `+` sign inside a pair, and `to_hex` then gives different text. */
  lemma FromHexAcceptsNonCanonical()
    ensures ParseHex(seq(64, k => 'F')) == Ok(seq(32, k => 255))
    ensures Hex(seq(32, k => 255)) != seq(64, k => 'F')
    ensures ParseByte('+', 'a') == Some(10)
  {
    var ones: Hash := seq(32, k => 255);
    PairsOfF(seq(64, k => 'F'), 0);
    HexAt(ones, 0);
    assert Hex(ones)[0] == 'f';
  }

  lemma {:induction false} PairsOfF(s: string, i: nat)
    requires s == seq(64, k => 'F') && i <= HASH_SIZE
    ensures ParseFrom(s, HASH_SIZE, i, seq(i, k => 255)) == Ok(seq(32, k => 255))
    decreases HASH_SIZE - i
  {
    if i < HASH_SIZE {
      assert s[2 * i] == 'F' && s[2 * i + 1] == 'F';
      assert ParseByte('F', 'F') == Some(255);
      PairsOfF(s, i + 1);
      assert seq(i, k => 255) + [255] == seq(i + 1, k => 255);
    }
  }

  // ---------------------------------------------------------------------
  // Combining hashes

  /** The bytes `combine_hashes` feeds to the digest: the 32-byte arrays laid
      end to end in order. */
  function Flatten(hs: seq<Hash>): (bytes: seq<Byte>)
    ensures |bytes| == HASH_SIZE * |hs|
  {
    if hs == [] then [] else hs[0] + Flatten(hs[1..])
  }

  lemma {:induction false} FlattenAt(hs: seq<Hash>, i: int, j: int)
    requires 0 <= i < |hs| && 0 <= j < HASH_SIZE
    ensures Flatten(hs)[HASH_SIZE * i + j] == hs[i][j]
    decreases |hs|
  {
    if i > 0 { FlattenAt(hs[1..], i - 1, j); }
  }

  lemma {:induction false} FlattenAppend(hs: seq<Hash>, h: Hash)
    ensures Flatten(hs + [h]) == Flatten(hs) + h
    decreases |hs|
  {
    if hs == [] {
      assert [h][1..] == [];
    } else {
      assert (hs + [h])[1..] == hs[1..] + [h];
      FlattenAppend(hs[1..], h);
    }
  }

  /** `combine_hashes`: the digest of the concatenated hashes. */
  function Combined(hs: seq<Hash>): Hash {
    FromBytes(Flatten(hs))
  }

  /** `combine_hashes`, which extends a buffer with each hash in turn. */
  method CombineHashes(hs: seq<Hash>) returns (h: Hash)
    ensures h == Combined(hs)
  {
    var combined: seq<Byte> := [];
    var i := 0;
    while i < |hs|
      invariant 0 <= i <= |hs|
      invariant combined == Flatten(hs[..i])
    {
      FlattenAppend(hs[..i], hs[i]);
      assert hs[..i + 1] == hs[..i] + [hs[i]];
      combined := combined + hs[i];
      i := i + 1;
    }
    assert hs[..|hs|] == hs;
    h := FromBytes(combined);
  }

  /** `transition_hash(prev, event, next)`. */
  function TransitionHash(prev: Hash, event: Hash, next: Hash): Hash {
    Combined([prev, event, next])
  }

  /** The transition hash is the digest of the 96 bytes `prev ++ event ++ next`. */
  lemma TransitionHashBytes(prev: Hash, event: Hash, next: Hash)
    ensures TransitionHash(prev, event, next) == FromBytes(prev + event + next)
  {
    var hs: seq<Hash> := [prev, event, next];
    assert hs[1..] == [event, next] && hs[1..][1..] == [next] && hs[1..][1..][1..] == [];
    assert Flatten(hs[1..][1..]) == next;
    assert Flatten(hs[1..]) == event + next;
    assert Flatten(hs) == prev + (event + next) == prev + event + next;
    assert TransitionHash(prev, event, next) == Combined(hs) == FromBytes(Flatten(hs));
  }
}
