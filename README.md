# greentic-types core, modelled in Dafny

This project models five pieces of the greentic-types crate:

- **The capability-offer pack extension (v1).** This covers the payload records, `CapabilitiesExtensionV1::new` and `validate`. It also covers the decode entry points, which return a payload only after it validates, and the encode helpers.
- **The component QA schema (v0.6.0).** This covers `QaMode` and its string codec, including the legacy input alias `"upgrade"`. It also covers the question records and how a spec's translation keys are collected.
- **The component description schema (v0.6.0).** This covers the describe and operation records and `schema_hash`. That function encodes the triple (input, output, config), digests it with SHA-256 and renders the digest as lowercase hex.
- **The schema IR.** This covers the closed recursive `SchemaIr` sum type and the `AdditionalProperties` policy. It also covers the defaults a decoder fills in for absent fields and the ascending key order of an object's properties.
- **The WIT return-schema table.** This says which schema each export of the `greentic:component@0.6.0` world returns.

Modules, one per source file:

| module | file | source |
|---|---|---|
| `Capabilities` | `capabilities.dfy` | src/pack/extensions/capabilities.rs |
| `Qa` | `qa.dfy` | src/schemas/component/v0_6_0/qa.rs |
| `Describe` | `describe.dfy` | src/schemas/component/v0_6_0/describe.rs |
| `SchemaModel` | `schema_ir.dfy` | src/schemas/common/schema_ir.rs |
| `WitMap` | `wit_map.dfy` | src/contracts/wit_map.rs |

Two helper modules hold shared definitions:

- `Wrappers` holds `Option` and `Result`.
- `Primitives` holds the Rust integer widths as subset types, the opaque CBOR value, and `I18nText` reduced to its `key`.

Some operations work by changing state step by step. Each of these is a `method` proved against a specification function:

- `validate` is a loop with early returns.
- `i18n_keys` and `collect_i18n_keys` insert into a set in loops.
- The hex loop of `schema_hash` appends to a string.

Pure code is written as functions and lemmas.

Libraries whose code is not part of this model are parameters of the operations that call them. Each is a function value, so every property holds for every such library:

- the canonical CBOR encoder;
- SHA-256;
- serde/ciborium (de)serialisation.

Rust's `str::trim` strips the Unicode White_Space characters. The model uses that exact set (`Capabilities.IsWhitespace`).

`schema_hash` encodes with the float-permissive `to_canonical_cbor_allow_floats` (src/schemas/component/v0_6_0/describe.rs:132), so `Describe.SchemaHashOf` passes `AllowFloats`; the float policy is an explicit parameter of the encoder.

## Model

| member | source | states |
|---|---|---|
| Capabilities.New | src/pack/extensions/capabilities.rs:26-31 | The payload has schema version 1 and the offers as given. It validates exactly when every offer satisfies both setup rules, and never fails the version check. |
| Capabilities.Validate | src/pack/extensions/capabilities.rs:34-55 | The loop with early returns gives the answer the specification `Validation` gives. Nothing is changed. |
| Capabilities.OfferViolation | src/pack/extensions/capabilities.rs:41-52 | An offer passes iff setup is present when required and a present setup's qa_ref is not blank. A required but missing setup reports `MissingSetup` with the offer's id. A blank qa_ref reports `InvalidSetupQaRef` even when setup is not required. |
| Capabilities.FirstViolation | src/pack/extensions/capabilities.rs:40-53 | Only the two setup errors can come out of the offer loop. |
| Capabilities.FirstViolationNoneIff | src/pack/extensions/capabilities.rs:40-54 | The offer loop finds nothing iff every offer satisfies both rules. |
| Capabilities.ValidationOkIff | src/pack/extensions/capabilities.rs:34-55 | Validation succeeds iff the schema version is 1 and every offer satisfies both rules. |
| Capabilities.UnsupportedVersionComesFirst | src/pack/extensions/capabilities.rs:35-39 | A version v other than 1 yields `UnsupportedSchemaVersion(v)` whatever the offers are. No offer is inspected. |
| Capabilities.FirstViolationIsAt | src/pack/extensions/capabilities.rs:40-53 | When offer i is the first invalid one, the loop reports offer i's violation. Offers after i do not matter. |
| Capabilities.ValidationReportsFirstInvalidOffer | src/pack/extensions/capabilities.rs:40-53 | The error names the first offer that breaks a rule. Truncating the offers right after it gives the same answer. |
| Capabilities.IsWhitespace | src/pack/extensions/capabilities.rs:47 | The whitespace test `trim` uses holds exactly for the 25 code points with the Unicode White_Space property. |
| Capabilities.TrimStart | src/pack/extensions/capabilities.rs:47 | The result is a suffix of the input, with every removed character whitespace and the first remaining one not. |
| Capabilities.TrimEnd | src/pack/extensions/capabilities.rs:47 | The result is a prefix of the input, with every removed character whitespace and the last remaining one not. |
| Capabilities.Trim | src/pack/extensions/capabilities.rs:47 | The trimmed string neither starts nor ends with whitespace. |
| Capabilities.TrimIsEmptyIffAllWhitespace | src/pack/extensions/capabilities.rs:47 | A string trims to empty iff every character of it is Unicode whitespace. |
| Capabilities.AcceptDecoded | src/pack/extensions/capabilities.rs:69-72 | The result is Ok iff parsing succeeded and the parsed payload validates, and then it is that payload. A parse error becomes `Deserialize`. A validation error is passed on unchanged. |
| Capabilities.FromExtensionValue | src/pack/extensions/capabilities.rs:66-73 | The result is Ok only for a parsed payload that validates, and a parsed payload that validates is returned as `Ok` of itself. A parse error becomes `Deserialize`. A validation error is propagated unchanged. |
| Capabilities.DecodeFromCborBytes | src/pack/extensions/capabilities.rs:213-220 | The result is Ok only for a read payload that validates, and a read payload that validates is returned as `Ok` of itself. A reader error becomes `Deserialize`. A validation error is propagated unchanged. |
| Capabilities.EncodeToCborBytes | src/pack/extensions/capabilities.rs:202-209 | The writer's bytes, or its error wrapped in `Serialize`. There is no validation on this side. |
| Capabilities.ToExtensionValue | src/pack/extensions/capabilities.rs:59-62 | The JSON value, or the error wrapped in `Serialize`. |
| Capabilities.EncodeThenDecode | src/pack/extensions/capabilities.rs:200-220 | With a reader that reads back what the writer wrote, encode then decode gives back the payload iff it validates, and otherwise the validation error. |
| Qa.AsStr | src/schemas/component/v0_6_0/qa.rs:30-37 | The canonical name parses back to the same mode, is an accepted name, and is never `"upgrade"`. |
| Qa.FromStr | src/schemas/component/v0_6_0/qa.rs:46-58 | Parsing succeeds iff the string is one of the five accepted names. `"upgrade"` gives `Update`. Every other string gives `"invalid QA mode"`. |
| Qa.Fmt | src/schemas/component/v0_6_0/qa.rs:40-44 | Display leaves what was already written and appends exactly the canonical name, never the alias `"upgrade"`, and that name parses back to the mode. |
| Qa.FromStrThenAsStr | src/schemas/component/v0_6_0/qa.rs:30-57 | An accepted name parses to a mode whose canonical name is the name itself, except that `"upgrade"` comes back as `"update"`. |
| Qa.AsStrInjective | src/schemas/component/v0_6_0/qa.rs:30-37 | Distinct modes have distinct names. |
| Qa.LegacyAliasIsNeverEmitted | src/schemas/component/v0_6_0/qa.rs:162-171 | `"upgrade"` and `"update"` both parse to `Update`. Display of `Update` is `"update"`. No mode is displayed as `"upgrade"`. |
| Qa.CollectI18nKeys | src/schemas/component/v0_6_0/qa.rs:112-125 | The new set is the old set plus exactly this question's keys: label, help, error and choice labels. |
| Qa.I18nKeys | src/schemas/component/v0_6_0/qa.rs:78-88 | The collected set equals the spec's keys: title, description, and every question's keys. |
| Qa.SpecKeysMembership | src/schemas/component/v0_6_0/qa.rs:78-88 | A key is collected iff it is the title key, the description key, or a key of some question. Both directions are stated. |
| Qa.QuestionKeysMembership | src/schemas/component/v0_6_0/qa.rs:112-125 | A question contributes a key iff it is its label key, a present help or error key, or a choice option's label key. |
| Qa.TitleAndDescriptionOnly | tests/schema_fixtures_v0_6_0.rs:145-168 | A spec with a title, a description and no questions yields exactly those two keys. |
| Describe.HexByte | src/schemas/component/v0_6_0/describe.rs:136 | A byte renders as two lowercase hex digits. |
| Describe.Hex | src/schemas/component/v0_6_0/describe.rs:134-137 | The rendering has twice as many characters as there are bytes, all in `0-9a-f`. |
| Describe.HexAt | src/schemas/component/v0_6_0/describe.rs:135-137 | Byte i is rendered at positions 2i (high nibble) and 2i+1 (low nibble). |
| Describe.UnhexInvertsHex | src/schemas/component/v0_6_0/describe.rs:134-137 | Reading the rendering back gives the bytes. |
| Describe.HexInjective | src/schemas/component/v0_6_0/describe.rs:134-137 | Distinct digests give distinct hex strings. |
| Describe.SchemaHashOf | src/schemas/component/v0_6_0/describe.rs:115-139 | The (input, output, config) material is encoded with `AllowFloats`. An encoder error is returned unchanged. Otherwise the result is 64 lowercase hex characters that read back to the SHA-256 digest of the encoding. |
| Describe.SchemaHash | src/schemas/component/v0_6_0/describe.rs:115-139 | The encode, digest and append loop returns exactly `SchemaHashOf`. |
| Describe.DistinctDigestsGiveDistinctHashes | src/schemas/component/v0_6_0/describe.rs:132-137 | Two materials whose encodings digest differently get different schema hashes. |
| Describe.SwappingInputAndOutputChangesHash | src/schemas/component/v0_6_0/describe.rs:121-132 | Swapping two different input and output schemas changes the hash whenever the two encodings digest differently. |
| Describe.StoredHashIsReproducible | tests/schema_fixtures_v0_6_0.rs:44-54 | A stored hash that matches its operation's schemas keeps matching when anything but the three schemas changes, and only the same string matches. It has 64 characters. |
| SchemaModel.Tag | src/schemas/common/schema_ir.rs:29-30 | Every schema has one of the eleven variant tags. |
| SchemaModel.TagsAreDistinct | src/schemas/common/schema_ir.rs:30-110 | The variant set is closed: eleven shapes, and two schemas share a tag iff they are the same shape. |
| SchemaModel.Resolve | src/schemas/common/schema_ir.rs:30-110 | Reading a schema keeps the variant that was read, for each of the eleven variants; the defaults it fills in are stated by `AbsentFieldsTakeDefaults`. |
| SchemaModel.ResolveAdditional | src/schemas/common/schema_ir.rs:16-24 | The policy is `Allow` exactly when it is absent or given as `Allow`; `Forbid` and a schema are kept as given. |
| SchemaModel.AbsentFieldsTakeDefaults | src/schemas/common/schema_ir.rs:16-104 | An absent additional policy is `Allow`. Absent object properties and required names are empty. Absent enum values and one-of variants are empty. Absent bounds, regex and format are `None`. |
| SchemaModel.ResolveKeepsDeclaredOrder | src/schemas/common/schema_ir.rs:94-104 | Enum values, one-of variants and required names keep their declared order and length. |
| SchemaModel.ResolveInvertsSpell | src/schemas/common/schema_ir.rs:30-110 | A schema with every field written out reads back as itself. |
| SchemaModel.ResolveInvertsOmit | src/schemas/common/schema_ir.rs:32-104 | Leaving out every field that holds its default and reading back gives the same schema. |
| SchemaModel.PropertyOrder | src/schemas/common/schema_ir.rs:35 | Properties are visited once per key, in strictly ascending key order. |
| SchemaModel.AscendingOrderIsUnique | src/schemas/common/schema_ir.rs:35 | Two strictly ascending sequences with the same members are equal, so the visiting order depends only on the key set. |
| WitMap.WitReturns | src/contracts/wit_map.rs:19-69 | The seven entries in source order; their shape and lookup are stated by `TableShape`, `LookupFindsEntry` and `TableCoversComponentExports`. |
| WitMap.SchemaIdFor | src/contracts/wit_map.rs:19-69 | Lookup by (interface, func) finds nothing iff no entry has that pair. What it finds is an entry's schema id. |
| WitMap.DistinctPairsMakeLookupExact | src/contracts/wit_map.rs:19-69 | In a table with distinct pairs, an entry maps a pair to an id iff lookup returns that id. So there is at most one id per pair. |
| WitMap.TableShape | src/contracts/wit_map.rs:19-69 | The table has seven entries, all in world `greentic:component@0.6.0` at version 6, with pairwise distinct (interface, func) pairs. |
| WitMap.LookupFindsEntry | src/contracts/wit_map.rs:19-69 | Looking up any entry's pair gives that entry's schema id. |
| WitMap.TableCoversComponentExports | src/contracts/wit_map.rs:20-68 | Each export maps to its schema: describe, component info and QA spec to their own ids; apply-answers to the config schema; the three schema exports to `greentic.component.schema@0.6.0`. |
| WitMap.UnlistedExportIsUnmapped | src/contracts/wit_map.rs:19-69 | No other (interface, func) pair is mapped. |

## Left out

- The canonical CBOR encoder, `CborBytes`, `Envelope` and `ensure_canonical` are not part of this model. The encoder is a parameter, an arbitrary function that may fail, so the fixture round-trip and envelope tests have no counterpart here.
- SHA-256 is a parameter that returns 32 bytes. Its cryptographic properties are not modelled. Where distinct hashes are claimed, the lemmas take distinct digests as a hypothesis.
- serde_json and ciborium (de)serialisation are parameters that return a payload or an error message. Their field names, aliases, `serde(default)` handling and skip rules are not modelled. The one exception is the schema IR defaults, which `SchemaModel.Resolve` states.
- `f64` bounds and `ciborium::Value` are opaque types (`SchemaModel.F64`, `Primitives.CborValue`). There is no floating-point reasoning.
- `I18nText` is reduced to its `key`. Its fallback text is not modelled, because key collection reads only the key.
- `Question::collect_i18n_keys` inserts into a `&mut BTreeSet` in place. The model passes the set in and returns the new set. A `BTreeSet` is a mathematical set here, so its iteration order is not modelled.
- `SchemaModel.PropertyOrder` compares keys by code point. Rust compares `String` keys by UTF-8 bytes, and the two orders agree, but UTF-8 encoding itself is not modelled.
- Qa.Fmt: `write_str` can report a formatter error (`fmt::Result`). The model always treats the write as successful, because the formatter's sink is not part of this model.
- The error messages of `CapabilitiesExtensionError` (its `Display`) are not modelled. Only the variants and their fields are.
- The `MissingInline` and `UnexpectedInline` errors are not produced by any code in capabilities.rs. The manifest's `ExtensionInline` handling produces them, and that handling, like the manifest get/set helpers for the extension, is not part of this model.
- The wizard records (src/wizard.rs), the fixture generator binary and the version modules that only re-export are not part of this model. They hold data shapes, file I/O or re-exports only.
