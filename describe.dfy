/**
 * The component description schema (v0.6.0) and the schema hash of an
 * operation: the triple (input, output, config) canonically encoded, run
 * through SHA-256, and rendered as lowercase hexadecimal, two characters per
 * digest byte, high nibble first.
 *
 * The canonical CBOR encoder and SHA-256 are not part of this model: both are
 * parameters. The encoder may fail; SHA-256 returns exactly 32 bytes.
 */
module Describe {
  import opened Wrappers
  import opened Primitives
  import opened SchemaModel

  datatype ComponentInfo = ComponentInfo(id: string, version: string, role: string, displayName: Option<I18nText>)

  datatype RedactionKind = Secret | Mask | Drop

  datatype RedactionRule = RedactionRule(jsonPointer: string, kind: RedactionKind)

  datatype ComponentRunInput = ComponentRunInput(schema: SchemaIr)

  datatype ComponentRunOutput = ComponentRunOutput(schema: SchemaIr)

  datatype ComponentOperation = ComponentOperation(
    id: string,
    displayName: Option<I18nText>,
    input: ComponentRunInput,
    output: ComponentRunOutput,
    defaults: map<string, CborValue>,
    redactions: seq<RedactionRule>,
    constraints: map<string, CborValue>,
    schemaHash: string)

  datatype ComponentDescribe = ComponentDescribe(
    info: ComponentInfo,
    providedCapabilities: seq<string>,
    requiredCapabilities: seq<string>,
    metadata: map<string, CborValue>,
    operations: seq<ComponentOperation>,
    configSchema: SchemaIr)

  /** The canonical encoder's two float policies. */
  datatype FloatPolicy = Strict | AllowFloats

  /** The canonical encoder's error; the model never looks inside one. */
  type CanonicalError(==)

  /** What gets encoded and hashed, in this field order. */
  datatype HashMaterial = HashMaterial(input: SchemaIr, output: SchemaIr, config: SchemaIr)

  /** A SHA-256 digest: exactly 32 bytes. */
  type Digest = d: seq<u8> | |d| == 32
    witness [0, 0, 0, 0, 0, 0, 0, 0, 0, 0, 0, 0, 0, 0, 0, 0, 0, 0, 0, 0, 0, 0, 0, 0, 0, 0, 0, 0, 0, 0, 0, 0]

  /** The canonical encoder: a material and a float policy give bytes or an error. */
  type Encoder = (HashMaterial, FloatPolicy) -> Result<seq<u8>, CanonicalError>

  // ---------------------------------------------------------------------
  // Lowercase hexadecimal
  // ---------------------------------------------------------------------

  const HexDigits: string := "0123456789abcdef"

  predicate IsLowerHexDigit(c: char) {
    ('0' <= c <= '9') || ('a' <= c <= 'f')
  }

  /** `format!("{byte:02x}")`: two lowercase digits, high nibble first. */
  function HexByte(b: u8): (s: string)
    ensures |s| == 2 && IsLowerHexDigit(s[0]) && IsLowerHexDigit(s[1])
  {
    [HexDigits[b / 16], HexDigits[b % 16]]
  }

  /** The digits of the bytes in order, two per byte. */
  function Hex(d: seq<u8>): (s: string)
    ensures |s| == 2 * |d|
    ensures forall i :: 0 <= i < |s| ==> IsLowerHexDigit(s[i])
  {
    if d == [] then [] else Hex(d[..|d| - 1]) + HexByte(d[|d| - 1])
  }

  /** The value of a lowercase hex digit. */
  function DigitValue(c: char): (v: nat)
    ensures v < 16
  {
    if '0' <= c <= '9' then c as nat - '0' as nat
    else if 'a' <= c <= 'f' then c as nat - 'a' as nat + 10
    else 0
  }

  /** Reads a string of lowercase hex digit pairs back into bytes. */
  function Unhex(s: string): (d: seq<int>)
    requires |s| % 2 == 0
    ensures |d| * 2 == |s|
  {
    if s == [] then []
    else Unhex(s[..|s| - 2]) + [DigitValue(s[|s| - 2]) * 16 + DigitValue(s[|s| - 1])]
  }

  lemma HexDigitsRoundTrip(n: nat)
    requires n < 16
    ensures DigitValue(HexDigits[n]) == n
  {
  }

  /** The two digits of one byte read back as that byte. */
  lemma HexByteRoundTrip(b: u8)
    ensures DigitValue(HexByte(b)[0]) * 16 + DigitValue(HexByte(b)[1]) == b
  {
    HexDigitsRoundTrip(b / 16);
    HexDigitsRoundTrip(b % 16);
  }

  /** Reading the hex rendering back gives the bytes: the rendering loses nothing. */
  lemma {:induction false} UnhexInvertsHex(d: seq<u8>)
    ensures Unhex(Hex(d)) == d
  {
    if d != [] {
      var init, b := d[..|d| - 1], d[|d| - 1];
      var s := Hex(d);
      assert s == Hex(init) + HexByte(b);
      assert s[..|s| - 2] == Hex(init);
      assert s[|s| - 2] == HexByte(b)[0] && s[|s| - 1] == HexByte(b)[1];
      HexByteRoundTrip(b);
      UnhexInvertsHex(init);
      assert d == init + [b];
    }
  }

  /** Byte i is rendered at positions 2i (high nibble) and 2i+1 (low nibble). */
  lemma {:induction false} HexAt(d: seq<u8>, i: nat)
    requires i < |d|
    ensures Hex(d)[2 * i] == HexDigits[d[i] / 16]
    ensures Hex(d)[2 * i + 1] == HexDigits[d[i] % 16]
  {
    if i < |d| - 1 {
      HexAt(d[..|d| - 1], i);
    }
  }

  /** Distinct byte strings have distinct renderings. */
  lemma HexInjective(a: seq<u8>, b: seq<u8>)
    requires Hex(a) == Hex(b)
    ensures a == b
  {
    UnhexInvertsHex(a);
    UnhexInvertsHex(b);
  }

  // ---------------------------------------------------------------------
  // The schema hash
  // ---------------------------------------------------------------------

  /**
   * What `schema_hash` returns: the encoder's error unchanged, or the hex of
   * the digest of the float-permissive encoding of (input, output, config).
   */
  function SchemaHashOf(input: SchemaIr, output: SchemaIr, config: SchemaIr, encode: Encoder, sha256: seq<u8> -> Digest)
    : (r: Result<string, CanonicalError>)
    ensures r.Ok? ==> |r.value| == 64 && forall i :: 0 <= i < 64 ==> IsLowerHexDigit(r.value[i])
    ensures encode(HashMaterial(input, output, config), AllowFloats).Err? ==>
      r == Err(encode(HashMaterial(input, output, config), AllowFloats).error)
    ensures encode(HashMaterial(input, output, config), AllowFloats).Ok? ==>
      r.Ok? && Unhex(r.value) == sha256(encode(HashMaterial(input, output, config), AllowFloats).value)
  {
    match encode(HashMaterial(input, output, config), AllowFloats)
    case Err(e) => Err(e)
    case Ok(bytes) =>
      UnhexInvertsHex(sha256(bytes));
      Ok(Hex(sha256(bytes)))
  }

  /** `schema_hash`: encode the material, digest it, and append two hex digits per digest byte. */
  method SchemaHash(input: SchemaIr, output: SchemaIr, config: SchemaIr, encode: Encoder, sha256: seq<u8> -> Digest)
    returns (r: Result<string, CanonicalError>)
    ensures r == SchemaHashOf(input, output, config, encode, sha256)
  {
    var material := HashMaterial(input, output, config);
    var bytes :- encode(material, AllowFloats);
    var digest := sha256(bytes);
    var hex := "";
    for i := 0 to |digest|
      invariant hex == Hex(digest[..i])
    {
      assert digest[..i + 1][..i] == digest[..i];
      hex := hex + HexByte(digest[i]);
    }
    assert digest[..|digest|] == digest;
    return Ok(hex);
  }

  /** Where two materials hash to different digests, their schema hashes differ. */
  lemma DistinctDigestsGiveDistinctHashes(
    a: HashMaterial, b: HashMaterial, encode: Encoder, sha256: seq<u8> -> Digest)
    requires encode(a, AllowFloats).Ok? && encode(b, AllowFloats).Ok?
    requires sha256(encode(a, AllowFloats).value) != sha256(encode(b, AllowFloats).value)
    ensures SchemaHashOf(a.input, a.output, a.config, encode, sha256) !=
            SchemaHashOf(b.input, b.output, b.config, encode, sha256)
  {
    var da := sha256(encode(a, AllowFloats).value);
    var db := sha256(encode(b, AllowFloats).value);
    if Hex(da) == Hex(db) {
      HexInjective(da, db);
    }
  }

  /**
   * Field order is part of the hash: swapping two different input and output
   * schemas changes the hash whenever the two encodings digest differently.
   */
  lemma SwappingInputAndOutputChangesHash(
    x: SchemaIr, y: SchemaIr, config: SchemaIr, encode: Encoder, sha256: seq<u8> -> Digest)
    requires x != y
    requires encode(HashMaterial(x, y, config), AllowFloats).Ok?
    requires encode(HashMaterial(y, x, config), AllowFloats).Ok?
    requires sha256(encode(HashMaterial(x, y, config), AllowFloats).value) !=
             sha256(encode(HashMaterial(y, x, config), AllowFloats).value)
    ensures SchemaHashOf(x, y, config, encode, sha256) != SchemaHashOf(y, x, config, encode, sha256)
  {
    DistinctDigestsGiveDistinctHashes(HashMaterial(x, y, config), HashMaterial(y, x, config), encode, sha256);
  }

  /** An operation's stored hash agrees with the one recomputed from its schemas and the component's config schema. */
  predicate HashMatches(d: ComponentDescribe, op: ComponentOperation, encode: Encoder, sha256: seq<u8> -> Digest) {
    SchemaHashOf(op.input.schema, op.output.schema, d.configSchema, encode, sha256) == Ok(op.schemaHash)
  }

  /**
   * The hash depends on the three schemas only: an operation whose stored
   * hash was computed from its schemas still matches after any change to its
   * id, display name, defaults, redactions or constraints, or to the other
   * fields of the description, and stops matching if the stored hash is
   * replaced by any other string.
   */
  lemma StoredHashIsReproducible(
    d: ComponentDescribe, op: ComponentOperation, d': ComponentDescribe, op': ComponentOperation,
    encode: Encoder, sha256: seq<u8> -> Digest)
    requires HashMatches(d, op, encode, sha256)
    requires op'.input == op.input && op'.output == op.output && d'.configSchema == d.configSchema
    ensures HashMatches(d', op', encode, sha256) <==> op'.schemaHash == op.schemaHash
    ensures |op.schemaHash| == 64
  {
  }
}
