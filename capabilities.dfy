/**
 * The capability-offer pack extension (v1): its payload records, the
 * constructor, the validation rule (schema version 1; an offer that needs
 * setup carries one; a setup's QA reference is not blank) and the decode
 * entry points, which hand back only payloads that pass validation.
 */
module Capabilities {
  import opened Wrappers
  import opened Primitives

  /** Pack extension identifier for capability offers (v1). */
  const ExtCapabilitiesV1: string := "greentic.ext.capabilities.v1"

  /** The only schema version this payload accepts. */
  const SupportedSchemaVersion: u32 := 1

  datatype CapabilityProviderRefV1 = CapabilityProviderRefV1(componentRef: string, op: string)

  datatype CapabilityScopeV1 = CapabilityScopeV1(envs: seq<string>, tenants: seq<string>, teams: seq<string>)

  datatype CapabilitySetupV1 = CapabilitySetupV1(qaRef: string)

  datatype CapabilityHookAppliesToV1 = CapabilityHookAppliesToV1(opNames: seq<string>)

  datatype CapabilityOfferV1 = CapabilityOfferV1(
    offerId: string,
    capId: string,
    version: string,
    provider: CapabilityProviderRefV1,
    scope: Option<CapabilityScopeV1>,
    priority: i32,
    requiresSetup: bool,
    setup: Option<CapabilitySetupV1>,
    appliesTo: Option<CapabilityHookAppliesToV1>)

  datatype CapabilitiesExtensionV1 = CapabilitiesExtensionV1(schemaVersion: u32, offers: seq<CapabilityOfferV1>)

  datatype CapabilitiesExtensionError =
    | Serialize(message: string)
    | Deserialize(message: string)
    | UnsupportedSchemaVersion(found: u32)
    | MissingSetup(offerId: string)
    | InvalidSetupQaRef(offerId: string)
    | MissingInline
    | UnexpectedInline

  /** A decoded JSON value (`serde_json::Value`); the model never looks inside one. */
  type JsonValue

  // ---------------------------------------------------------------------
  // Trimming
  // ---------------------------------------------------------------------

  /** The 25 code points with the Unicode White_Space property, listed one by one. */
  const UnicodeWhiteSpace: set<char> := {
    '\U{9}', '\U{A}', '\U{B}', '\U{C}', '\U{D}', ' ', '\U{85}', '\U{A0}', '\U{1680}',
    '\U{2000}', '\U{2001}', '\U{2002}', '\U{2003}', '\U{2004}', '\U{2005}', '\U{2006}',
    '\U{2007}', '\U{2008}', '\U{2009}', '\U{200A}',
    '\U{2028}', '\U{2029}', '\U{202F}', '\U{205F}', '\U{3000}'}

  /** Rust's `char::is_whitespace`, written with the ranges of the White_Space table. */
  predicate IsWhitespace(c: char)
    ensures IsWhitespace(c) <==> c in UnicodeWhiteSpace
  {
    ('\U{9}' <= c <= '\U{D}') || c == ' ' || c == '\U{85}' || c == '\U{A0}' || c == '\U{1680}' ||
    ('\U{2000}' <= c <= '\U{200A}') || c == '\U{2028}' || c == '\U{2029}' || c == '\U{202F}' ||
    c == '\U{205F}' || c == '\U{3000}'
  }

  predicate AllWhitespace(s: string) {
    forall i :: 0 <= i < |s| ==> IsWhitespace(s[i])
  }

  /** Drops leading whitespace: the result is the suffix that starts at the first other character. */
  function TrimStart(s: string): (r: string)
    ensures |r| <= |s| && r == s[|s| - |r|..]
    ensures AllWhitespace(s[..|s| - |r|])
    ensures r == [] || !IsWhitespace(r[0])
  {
    if s != [] && IsWhitespace(s[0]) then TrimStart(s[1..]) else s
  }

  /** Drops trailing whitespace: the result is the prefix that ends at the last other character. */
  function TrimEnd(s: string): (r: string)
    ensures |r| <= |s| && r == s[..|r|]
    ensures AllWhitespace(s[|r|..])
    ensures r == [] || !IsWhitespace(r[|r| - 1])
  {
    if s != [] && IsWhitespace(s[|s| - 1]) then TrimEnd(s[..|s| - 1]) else s
  }

  /** Rust's `str::trim`: both ends stripped of White_Space characters. */
  function Trim(s: string): (r: string)
    ensures r == [] || (!IsWhitespace(r[0]) && !IsWhitespace(r[|r| - 1]))
  {
    TrimEnd(TrimStart(s))
  }

  /** A string trims to nothing exactly when every character in it is whitespace. */
  lemma TrimIsEmptyIffAllWhitespace(s: string)
    ensures Trim(s) == [] <==> AllWhitespace(s)
  {
    var t := TrimStart(s);
    assert s == s[..|s| - |t|] + t;
    if t != [] {
      assert !IsWhitespace(t[0]);
      assert TrimEnd(t) != [];
      assert !IsWhitespace(s[|s| - |t|]);
    }
  }

  // ---------------------------------------------------------------------
  // Construction and validation
  // ---------------------------------------------------------------------

  /** The rule each offer must satisfy, stated without reference to trimming. */
  predicate OfferIsValid(o: CapabilityOfferV1) {
    && (o.requiresSetup ==> o.setup.Some?)
    && (o.setup.Some? ==> !AllWhitespace(o.setup.value.qaRef))
  }

  predicate AllOffersValid(offers: seq<CapabilityOfferV1>) {
    forall i :: 0 <= i < |offers| ==> OfferIsValid(offers[i])
  }

  /**
   * The check run on one offer: a missing required setup is reported first;
   * a setup whose QA reference is blank is reported whether or not setup is required.
   */
  function OfferViolation(o: CapabilityOfferV1): (r: Option<CapabilitiesExtensionError>)
    ensures r.None? <==> OfferIsValid(o)
    ensures o.requiresSetup && o.setup.None? ==> r == Some(MissingSetup(o.offerId))
    ensures o.setup.Some? && AllWhitespace(o.setup.value.qaRef) ==> r == Some(InvalidSetupQaRef(o.offerId))
  {
    if o.requiresSetup && o.setup.None? then
      Some(MissingSetup(o.offerId))
    else if o.setup.Some? && Trim(o.setup.value.qaRef) == [] then
      TrimIsEmptyIffAllWhitespace(o.setup.value.qaRef);
      Some(InvalidSetupQaRef(o.offerId))
    else
      (if o.setup.Some? then TrimIsEmptyIffAllWhitespace(o.setup.value.qaRef); None else None)
  }

  /** The violation of the first offer, in sequence order, that has one. */
  function FirstViolation(offers: seq<CapabilityOfferV1>): (r: Option<CapabilitiesExtensionError>)
    ensures r.Some? ==> r.value.MissingSetup? || r.value.InvalidSetupQaRef?
  {
    if offers == [] then None
    else if OfferViolation(offers[0]).Some? then OfferViolation(offers[0])
    else FirstViolation(offers[1..])
  }

  /** What validating a payload answers: the unit value, or the error the first failed rule reports. */
  function Validation(ext: CapabilitiesExtensionV1): Result<(), CapabilitiesExtensionError> {
    if ext.schemaVersion != SupportedSchemaVersion then
      Err(UnsupportedSchemaVersion(ext.schemaVersion))
    else
      match FirstViolation(ext.offers)
      case Some(e) => Err(e)
      case None => Ok(())
  }

  /** `CapabilitiesExtensionV1::new`: version 1 and the offers as given. */
  function New(offers: seq<CapabilityOfferV1>): (r: CapabilitiesExtensionV1)
    ensures r.schemaVersion == 1 && r.offers == offers
    ensures Validation(r).Ok? <==> AllOffersValid(offers)
    ensures !Validation(r).Err? || !Validation(r).error.UnsupportedSchemaVersion?
  {
    ValidationOkIff(CapabilitiesExtensionV1(SupportedSchemaVersion, offers));
    CapabilitiesExtensionV1(SupportedSchemaVersion, offers)
  }

  /**
   * `validate`: the version check, then the offers in order, returning at the
   * first one that breaks a rule. Nothing is changed.
   */
  method Validate(ext: CapabilitiesExtensionV1) returns (r: Result<(), CapabilitiesExtensionError>)
    ensures r == Validation(ext)
  {
    if ext.schemaVersion != SupportedSchemaVersion {
      return Err(UnsupportedSchemaVersion(ext.schemaVersion));
    }
    for i := 0 to |ext.offers|
      invariant FirstViolation(ext.offers) == FirstViolation(ext.offers[i..])
    {
      var offer := ext.offers[i];
      assert ext.offers[i..][1..] == ext.offers[i + 1..];
      if offer.requiresSetup && offer.setup.None? {
        return Err(MissingSetup(offer.offerId));
      }
      if offer.setup.Some? && Trim(offer.setup.value.qaRef) == [] {
        return Err(InvalidSetupQaRef(offer.offerId));
      }
    }
    return Ok(());
  }

  lemma {:induction false} FirstViolationNoneIff(offers: seq<CapabilityOfferV1>)
    ensures FirstViolation(offers).None? <==> AllOffersValid(offers)
  {
    if offers != [] {
      FirstViolationNoneIff(offers[1..]);
      assert forall i :: 1 <= i < |offers| ==> offers[i] == offers[1..][i - 1];
    }
  }

  /** Validation succeeds exactly when the version is 1 and every offer satisfies both rules. */
  lemma ValidationOkIff(ext: CapabilitiesExtensionV1)
    ensures Validation(ext).Ok? <==> ext.schemaVersion == 1 && AllOffersValid(ext.offers)
  {
    FirstViolationNoneIff(ext.offers);
  }

  /** A version other than 1 is reported whatever the offers are: none is inspected. */
  lemma UnsupportedVersionComesFirst(version: u32, offers: seq<CapabilityOfferV1>)
    requires version != 1
    ensures Validation(CapabilitiesExtensionV1(version, offers)) == Err(UnsupportedSchemaVersion(version))
    ensures Validation(CapabilitiesExtensionV1(version, offers)) == Validation(CapabilitiesExtensionV1(version, []))
  {
  }

  lemma {:induction false} FirstViolationIsAt(offers: seq<CapabilityOfferV1>, i: nat)
    requires i < |offers| && !OfferIsValid(offers[i])
    requires forall j :: 0 <= j < i ==> OfferIsValid(offers[j])
    ensures FirstViolation(offers) == OfferViolation(offers[i])
    ensures FirstViolation(offers) == FirstViolation(offers[..i + 1])
  {
    if i > 0 {
      assert OfferIsValid(offers[0]);
      assert offers[..i + 1][1..] == offers[1..][..i];
      FirstViolationIsAt(offers[1..], i - 1);
    }
  }

  /**
   * The error names the first offer that breaks a rule, and the offers after
   * it are never examined: cutting them off does not change the answer.
   */
  lemma ValidationReportsFirstInvalidOffer(ext: CapabilitiesExtensionV1, i: nat)
    requires ext.schemaVersion == 1
    requires i < |ext.offers| && !OfferIsValid(ext.offers[i])
    requires forall j :: 0 <= j < i ==> OfferIsValid(ext.offers[j])
    ensures Validation(ext) == Err(OfferViolation(ext.offers[i]).value)
    ensures Validation(ext).error.offerId == ext.offers[i].offerId
    ensures Validation(ext) == Validation(ext.(offers := ext.offers[..i + 1]))
  {
    FirstViolationIsAt(ext.offers, i);
  }

  // ---------------------------------------------------------------------
  // Encoding and decoding
  // ---------------------------------------------------------------------

  /** Accepts a parser's result only if the payload validates; a parse failure becomes `Deserialize`. */
  function AcceptDecoded(decoded: Result<CapabilitiesExtensionV1, string>): (r: Result<CapabilitiesExtensionV1, CapabilitiesExtensionError>)
    ensures r.Ok? <==> decoded.Ok? && Validation(decoded.value).Ok?
    ensures r.Ok? ==> r.value == decoded.value
    ensures decoded.Err? ==> r == Err(Deserialize(decoded.error))
    ensures decoded.Ok? && Validation(decoded.value).Err? ==> r == Err(Validation(decoded.value).error)
  {
    match decoded
    case Err(msg) => Err(Deserialize(msg))
    case Ok(payload) =>
      match Validation(payload)
      case Err(e) => Err(e)
      case Ok(_) => Ok(payload)
  }

  /**
   * `from_extension_value`: `fromValue` stands for serde's JSON decoding,
   * which yields a payload or the library's error message.
   */
  function FromExtensionValue(value: JsonValue, fromValue: JsonValue -> Result<CapabilitiesExtensionV1, string>)
    : (r: Result<CapabilitiesExtensionV1, CapabilitiesExtensionError>)
    ensures r.Ok? ==> fromValue(value) == Ok(r.value) && Validation(r.value).Ok?
    ensures fromValue(value).Ok? && Validation(fromValue(value).value).Ok? ==> r == Ok(fromValue(value).value)
    ensures fromValue(value).Err? ==> r == Err(Deserialize(fromValue(value).error))
    ensures fromValue(value).Ok? && Validation(fromValue(value).value).Err? ==>
      r == Err(Validation(fromValue(value).value).error)
  {
    AcceptDecoded(fromValue(value))
  }

  /**
   * `decode_capabilities_extension_v1_from_cbor_bytes`: `fromReader` stands
   * for the CBOR reader, which yields a payload or the library's error message.
   */
  function DecodeFromCborBytes(bytes: seq<u8>, fromReader: seq<u8> -> Result<CapabilitiesExtensionV1, string>)
    : (r: Result<CapabilitiesExtensionV1, CapabilitiesExtensionError>)
    ensures r.Ok? ==> fromReader(bytes) == Ok(r.value) && Validation(r.value).Ok?
    ensures fromReader(bytes).Ok? && Validation(fromReader(bytes).value).Ok? ==> r == Ok(fromReader(bytes).value)
    ensures fromReader(bytes).Err? ==> r == Err(Deserialize(fromReader(bytes).error))
    ensures fromReader(bytes).Ok? && Validation(fromReader(bytes).value).Err? ==>
      r == Err(Validation(fromReader(bytes).value).error)
  {
    AcceptDecoded(fromReader(bytes))
  }

  /**
   * `encode_capabilities_extension_v1_to_cbor_bytes`: `intoWriter` stands for
   * the CBOR writer filling the buffer; its failure becomes `Serialize`.
   * No validation happens on this side.
   */
  function EncodeToCborBytes(payload: CapabilitiesExtensionV1, intoWriter: CapabilitiesExtensionV1 -> Result<seq<u8>, string>)
    : (r: Result<seq<u8>, CapabilitiesExtensionError>)
    ensures intoWriter(payload).Ok? ==> r == Ok(intoWriter(payload).value)
    ensures intoWriter(payload).Err? ==> r == Err(Serialize(intoWriter(payload).error))
  {
    match intoWriter(payload)
    case Ok(bytes) => Ok(bytes)
    case Err(msg) => Err(Serialize(msg))
  }

  /** `to_extension_value`: `toValue` stands for serde's JSON encoding; its failure becomes `Serialize`. */
  function ToExtensionValue(payload: CapabilitiesExtensionV1, toValue: CapabilitiesExtensionV1 -> Result<JsonValue, string>)
    : (r: Result<JsonValue, CapabilitiesExtensionError>)
    ensures toValue(payload).Ok? ==> r == Ok(toValue(payload).value)
    ensures toValue(payload).Err? ==> r == Err(Serialize(toValue(payload).error))
  {
    match toValue(payload)
    case Ok(v) => Ok(v)
    case Err(msg) => Err(Serialize(msg))
  }

  /**
   * With a reader that reads back what the writer wrote, encoding and then
   * decoding returns the payload exactly when it is valid, and otherwise
   * the validation error.
   */
  lemma EncodeThenDecode(
    payload: CapabilitiesExtensionV1,
    intoWriter: CapabilitiesExtensionV1 -> Result<seq<u8>, string>,
    fromReader: seq<u8> -> Result<CapabilitiesExtensionV1, string>)
    requires intoWriter(payload).Ok?
    requires fromReader(intoWriter(payload).value) == Ok(payload)
    ensures EncodeToCborBytes(payload, intoWriter).Ok?
    ensures DecodeFromCborBytes(EncodeToCborBytes(payload, intoWriter).value, fromReader) ==
      if Validation(payload).Ok? then Ok(payload) else Err(Validation(payload).error)
  {
  }
}
