/**
 * The typed schema IR: a closed, recursive sum type describing the shape of
 * a value, the additional-properties policy of objects, the defaults a
 * decoder fills in for absent fields, and the ascending key order in which
 * an object's properties are visited.
 */
module SchemaModel {
  import opened Wrappers
  import opened Primitives

  /** An IEEE-754 double; kept opaque, the model does no floating-point reasoning. */
  type F64(==)

  /** What an object says about properties it does not name. The default is `Allow`. */
  datatype AdditionalProperties = Allow | Forbid | Schema(schema: SchemaIr)

  /**
   * The eleven schema shapes. `properties` is a map, so its keys are unique
   * by construction; `values` and `variants` are sequences and keep the
   * order in which they were declared.
   */
  datatype SchemaIr =
    | Object(properties: map<string, SchemaIr>, required: seq<string>, additional: AdditionalProperties)
    | Array(items: SchemaIr, minItems: Option<u64>, maxItems: Option<u64>)
    | String(minLen: Option<u64>, maxLen: Option<u64>, regex: Option<string>, format: Option<string>)
    | Int(min: Option<i64>, max: Option<i64>)
    | Float(floatMin: Option<F64>, floatMax: Option<F64>)
    | Bool
    | Null
    | Bytes
    | Enum(values: seq<CborValue>)
    | OneOf(variants: seq<SchemaIr>)
    | Ref(id: string)

  /** The variant tag, as it appears in the `type` field of the encoding. */
  function Tag(s: SchemaIr): (t: string)
    ensures t in Tags
  {
    match s
    case Object(_, _, _) => "object"
    case Array(_, _, _) => "array"
    case String(_, _, _, _) => "string"
    case Int(_, _) => "int"
    case Float(_, _) => "float"
    case Bool => "bool"
    case Null => "null"
    case Bytes => "bytes"
    case Enum(_) => "enum"
    case OneOf(_) => "one_of"
    case Ref(_) => "ref"
  }

  const Tags: seq<string> :=
    ["object", "array", "string", "int", "float", "bool", "null", "bytes", "enum", "one_of", "ref"]

  /** The variant set is closed: exactly eleven shapes, each with its own tag. */
  lemma TagsAreDistinct(s: SchemaIr, t: SchemaIr)
    ensures |Tags| == 11
    ensures Tag(s) == Tag(t) <==>
      (s.Object? && t.Object?) || (s.Array? && t.Array?) || (s.String? && t.String?) ||
      (s.Int? && t.Int?) || (s.Float? && t.Float?) || (s.Bool? && t.Bool?) ||
      (s.Null? && t.Null?) || (s.Bytes? && t.Bytes?) || (s.Enum? && t.Enum?) ||
      (s.OneOf? && t.OneOf?) || (s.Ref? && t.Ref?)
  {
  }

  // ---------------------------------------------------------------------
  // Defaults for absent fields
  // ---------------------------------------------------------------------

  /**
   * A schema as a decoder reads it before defaults are applied. Each field
   * that the encoding may leave out and that is not itself optional can be
   * absent here. Option-typed fields (the bounds, regex, format) need no
   * extra marker: absent and null both read as `None`.
   */
  datatype RawAdditional = AdditionalAbsent | RawAllow | RawForbid | RawSchema(schema: RawSchemaIr)

  datatype RawProperties = PropertiesAbsent | PropertiesGiven(entries: map<string, RawSchemaIr>)

  datatype RawVariants = VariantsAbsent | VariantsGiven(items: seq<RawSchemaIr>)

  datatype RawSchemaIr =
    | RawObject(properties: RawProperties, required: Option<seq<string>>, additional: RawAdditional)
    | RawArray(items: RawSchemaIr, minItems: Option<u64>, maxItems: Option<u64>)
    | RawString(minLen: Option<u64>, maxLen: Option<u64>, regex: Option<string>, format: Option<string>)
    | RawInt(min: Option<i64>, max: Option<i64>)
    | RawFloat(floatMin: Option<F64>, floatMax: Option<F64>)
    | RawBool
    | RawNull
    | RawBytes
    | RawEnum(values: Option<seq<CborValue>>)
    | RawOneOf(variants: RawVariants)
    | RawRef(id: string)

  /**
   * Fills in the defaults: empty properties and required, `Allow`, empty
   * values and variants. The shape read is the shape produced.
   */
  function Resolve(raw: RawSchemaIr): (r: SchemaIr)
    ensures raw.RawObject? <==> r.Object?
    ensures raw.RawArray? <==> r.Array?
    ensures raw.RawString? <==> r.String?
    ensures raw.RawInt? <==> r.Int?
    ensures raw.RawFloat? <==> r.Float?
    ensures raw.RawBool? <==> r.Bool?
    ensures raw.RawNull? <==> r.Null?
    ensures raw.RawBytes? <==> r.Bytes?
    ensures raw.RawEnum? <==> r.Enum?
    ensures raw.RawOneOf? <==> r.OneOf?
    ensures raw.RawRef? <==> r.Ref?
  {
    match raw
    case RawObject(props, req, add) =>
      var properties :=
        match props {
          case PropertiesAbsent => map[]
          case PropertiesGiven(m) => map k | k in m :: Resolve(m[k])
        };
      var required :=
        match req {
          case None => []
          case Some(r) => r
        };
      Object(properties, required, ResolveAdditional(add))
    case RawArray(items, lo, hi) => Array(Resolve(items), lo, hi)
    case RawString(lo, hi, re, fmt) => String(lo, hi, re, fmt)
    case RawInt(lo, hi) => Int(lo, hi)
    case RawFloat(lo, hi) => Float(lo, hi)
    case RawBool => Bool
    case RawNull => Null
    case RawBytes => Bytes
    case RawEnum(vals) =>
      Enum(match vals {
             case None => []
             case Some(v) => v
           })
    case RawOneOf(vars) =>
      OneOf(match vars {
              case VariantsAbsent => []
              case VariantsGiven(v) => seq(|v|, i requires 0 <= i < |v| => Resolve(v[i]))
            })
    case RawRef(id) => Ref(id)
  }

  /** The additional-properties policy: `Allow` when absent, otherwise the policy given. */
  function ResolveAdditional(raw: RawAdditional): (r: AdditionalProperties)
    ensures r == Allow <==> raw.AdditionalAbsent? || raw.RawAllow?
    ensures r == Forbid <==> raw.RawForbid?
    ensures r.Schema? <==> raw.RawSchema?
  {
    match raw
    case AdditionalAbsent => Allow
    case RawAllow => Allow
    case RawForbid => Forbid
    case RawSchema(s) => Schema(Resolve(s))
  }

  /**
   * Every absent field takes its default, and bounds that are absent are
   * `None`: an object with no fields at all is the empty, permissive object.
   */
  lemma AbsentFieldsTakeDefaults(raw: RawSchemaIr)
    ensures ResolveAdditional(AdditionalAbsent) == Allow
    ensures raw.RawObject? && raw.properties.PropertiesAbsent? ==> Resolve(raw).properties == map[]
    ensures raw.RawObject? && raw.required.None? ==> Resolve(raw).required == []
    ensures raw.RawObject? && raw.additional.AdditionalAbsent? ==> Resolve(raw).additional == Allow
    ensures Resolve(RawObject(PropertiesAbsent, None, AdditionalAbsent)) == Object(map[], [], Allow)
    ensures raw.RawEnum? && raw.values.None? ==> Resolve(raw) == Enum([])
    ensures raw.RawOneOf? && raw.variants.VariantsAbsent? ==> Resolve(raw) == OneOf([])
    ensures raw.RawArray? && raw.minItems.None? && raw.maxItems.None? ==>
      Resolve(raw) == Array(Resolve(raw.items), None, None)
    ensures Resolve(RawString(None, None, None, None)) == String(None, None, None, None)
    ensures Resolve(RawInt(None, None)) == Int(None, None)
    ensures Resolve(RawFloat(None, None)) == Float(None, None)
  {
  }

  /** Present sequences keep their declared order: nothing is sorted or dropped. */
  lemma ResolveKeepsDeclaredOrder(raw: RawSchemaIr)
    ensures raw.RawEnum? && raw.values.Some? ==> Resolve(raw).values == raw.values.value
    ensures raw.RawOneOf? && raw.variants.VariantsGiven? ==>
      |Resolve(raw).variants| == |raw.variants.items| &&
      forall i :: 0 <= i < |raw.variants.items| ==> Resolve(raw).variants[i] == Resolve(raw.variants.items[i])
    ensures raw.RawObject? && raw.required.Some? ==> Resolve(raw).required == raw.required.value
  {
  }

  /** The raw form with every field written out. */
  function Spell(s: SchemaIr): RawSchemaIr {
    match s
    case Object(props, req, add) =>
      RawObject(PropertiesGiven(map k | k in props :: Spell(props[k])), Some(req), SpellAdditional(add))
    case Array(items, lo, hi) => RawArray(Spell(items), lo, hi)
    case String(lo, hi, re, fmt) => RawString(lo, hi, re, fmt)
    case Int(lo, hi) => RawInt(lo, hi)
    case Float(lo, hi) => RawFloat(lo, hi)
    case Bool => RawBool
    case Null => RawNull
    case Bytes => RawBytes
    case Enum(vals) => RawEnum(Some(vals))
    case OneOf(vars) => RawOneOf(VariantsGiven(seq(|vars|, i requires 0 <= i < |vars| => Spell(vars[i]))))
    case Ref(id) => RawRef(id)
  }

  function SpellAdditional(a: AdditionalProperties): RawAdditional {
    match a
    case Allow => RawAllow
    case Forbid => RawForbid
    case Schema(s) => RawSchema(Spell(s))
  }

  /** The raw form with every field that holds its default value left out. */
  function Omit(s: SchemaIr): RawSchemaIr {
    match s
    case Object(props, req, add) =>
      RawObject(
        if props == map[] then PropertiesAbsent else PropertiesGiven(map k | k in props :: Omit(props[k])),
        if req == [] then None else Some(req),
        OmitAdditional(add))
    case Array(items, lo, hi) => RawArray(Omit(items), lo, hi)
    case String(lo, hi, re, fmt) => RawString(lo, hi, re, fmt)
    case Int(lo, hi) => RawInt(lo, hi)
    case Float(lo, hi) => RawFloat(lo, hi)
    case Bool => RawBool
    case Null => RawNull
    case Bytes => RawBytes
    case Enum(vals) => RawEnum(if vals == [] then None else Some(vals))
    case OneOf(vars) =>
      RawOneOf(if vars == [] then VariantsAbsent
               else VariantsGiven(seq(|vars|, i requires 0 <= i < |vars| => Omit(vars[i]))))
    case Ref(id) => RawRef(id)
  }

  function OmitAdditional(a: AdditionalProperties): RawAdditional {
    match a
    case Allow => AdditionalAbsent
    case Forbid => RawForbid
    case Schema(s) => RawSchema(Omit(s))
  }

  /** Reading back a schema written with every field gives the same schema. */
  lemma {:induction false} ResolveInvertsSpell(s: SchemaIr)
    ensures Resolve(Spell(s)) == s
  {
    match s
    case Object(props, req, add) =>
      forall k | k in props ensures Resolve(Spell(props[k])) == props[k] {
        ResolveInvertsSpell(props[k]);
      }
      var spelled := map k | k in props :: Spell(props[k]);
      assert (map k | k in spelled :: Resolve(spelled[k])) == props;
      if add.Schema? {
        ResolveInvertsSpell(add.schema);
      }
    case Array(items, _, _) =>
      ResolveInvertsSpell(items);
    case OneOf(vars) =>
      forall i | 0 <= i < |vars| ensures Resolve(Spell(vars[i])) == vars[i] {
        ResolveInvertsSpell(vars[i]);
      }
      var spelled := seq(|vars|, i requires 0 <= i < |vars| => Spell(vars[i]));
      assert seq(|spelled|, i requires 0 <= i < |spelled| => Resolve(spelled[i])) == vars;
    case String(_, _, _, _) =>
    case Int(_, _) =>
    case Float(_, _) =>
    case Bool =>
    case Null =>
    case Bytes =>
    case Enum(_) =>
    case Ref(_) =>
  }

  /**
   * The defaults are faithful: leaving out every field that holds its
   * default value and reading the schema back gives the same schema.
   */
  lemma {:induction false} ResolveInvertsOmit(s: SchemaIr)
    ensures Resolve(Omit(s)) == s
  {
    match s
    case Object(props, req, add) =>
      forall k | k in props ensures Resolve(Omit(props[k])) == props[k] {
        ResolveInvertsOmit(props[k]);
      }
      if props != map[] {
        var omitted := map k | k in props :: Omit(props[k]);
        assert (map k | k in omitted :: Resolve(omitted[k])) == props;
      }
      if add.Schema? {
        ResolveInvertsOmit(add.schema);
      }
    case Array(items, _, _) =>
      ResolveInvertsOmit(items);
    case OneOf(vars) =>
      forall i | 0 <= i < |vars| ensures Resolve(Omit(vars[i])) == vars[i] {
        ResolveInvertsOmit(vars[i]);
      }
      if vars != [] {
        var omitted := seq(|vars|, i requires 0 <= i < |vars| => Omit(vars[i]));
        assert seq(|omitted|, i requires 0 <= i < |omitted| => Resolve(omitted[i])) == vars;
      }
    case String(_, _, _, _) =>
    case Int(_, _) =>
    case Float(_, _) =>
    case Bool =>
    case Null =>
    case Bytes =>
    case Enum(_) =>
    case Ref(_) =>
  }

  // ---------------------------------------------------------------------
  // Ascending key order of the properties map
  // ---------------------------------------------------------------------

  /**
   * Strict lexicographic order on strings, character by character. Characters
   * compare by code point, which orders UTF-8 byte strings the same way.
   */
  predicate Below(a: string, b: string)
    decreases |a|
  {
    if |a| == 0 then |b| > 0
    else |b| > 0 && (a[0] < b[0] || (a[0] == b[0] && Below(a[1..], b[1..])))
  }

  lemma {:induction false} BelowIrreflexive(a: string)
    ensures !Below(a, a)
    decreases |a|
  {
    if |a| > 0 {
      BelowIrreflexive(a[1..]);
    }
  }

  lemma {:induction false} BelowTransitive(a: string, b: string, c: string)
    requires Below(a, b) && Below(b, c)
    ensures Below(a, c)
    decreases |a|
  {
    if |a| > 0 && a[0] == b[0] && b[0] == c[0] {
      BelowTransitive(a[1..], b[1..], c[1..]);
    }
  }

  lemma {:induction false} BelowTotal(a: string, b: string)
    requires a != b
    ensures Below(a, b) || Below(b, a)
    decreases |a|
  {
    if |a| > 0 && |b| > 0 && a[0] == b[0] {
      assert a == [a[0]] + a[1..] && b == [b[0]] + b[1..];
      BelowTotal(a[1..], b[1..]);
    }
  }

  ghost predicate IsLeast(m: string, s: set<string>) {
    m in s && forall x :: x in s && x != m ==> Below(m, x)
  }

  /** Every non-empty finite set of strings has a least element. */
  lemma {:induction false} LeastExists(s: set<string>)
    requires s != {}
    ensures exists m :: IsLeast(m, s)
    decreases s
  {
    var y :| y in s;
    if s == {y} {
      assert IsLeast(y, s);
    } else {
      LeastExists(s - {y});
      var m :| IsLeast(m, s - {y});
      if Below(m, y) {
        assert IsLeast(m, s);
      } else {
        BelowTotal(m, y);
        forall x | x in s && x != y
          ensures Below(y, x)
        {
          if x != m {
            BelowTransitive(y, m, x);
          }
        }
        assert IsLeast(y, s);
      }
    }
  }

  ghost function Least(s: set<string>): (m: string)
    requires s != {}
    ensures IsLeast(m, s)
  {
    LeastExists(s);
    var m :| IsLeast(m, s);
    m
  }

  ghost function SortedKeys(s: set<string>): (keys: seq<string>)
    ensures |keys| == |s|
    ensures forall k :: k in keys <==> k in s
    ensures forall i, j :: 0 <= i < j < |keys| ==> Below(keys[i], keys[j])
    decreases s
  {
    if s == {} then []
    else
      var m := Least(s);
      var rest := SortedKeys(s - {m});
      assert forall i :: 0 <= i < |rest| ==> Below(m, rest[i]) by {
        forall i | 0 <= i < |rest| ensures Below(m, rest[i]) {
          assert rest[i] in s - {m};
        }
      }
      [m] + rest
  }

  /**
   * The order in which an object's properties are visited (a `BTreeMap`
   * iterates in ascending key order): every key exactly once, ascending,
   * whatever order the entries were inserted in.
   */
  ghost function PropertyOrder(props: map<string, SchemaIr>): (keys: seq<string>)
    ensures |keys| == |props|
    ensures forall k :: k in keys <==> k in props
    ensures forall i, j :: 0 <= i < j < |keys| ==> Below(keys[i], keys[j])
  {
    SortedKeys(props.Keys)
  }

  lemma HeadIsMember(a: seq<string>)
    requires a != []
    ensures a[0] in a
  {
  }

  /** The ascending order is unique, so the visiting order depends only on the keys. */
  lemma {:induction false} AscendingOrderIsUnique(a: seq<string>, b: seq<string>)
    requires forall i, j :: 0 <= i < j < |a| ==> Below(a[i], a[j])
    requires forall i, j :: 0 <= i < j < |b| ==> Below(b[i], b[j])
    requires forall k :: k in a <==> k in b
    ensures a == b
    decreases |a|
  {
    if a != [] && b != [] {
      assert a[0] in b && b[0] in a;
      if a[0] != b[0] {
        // each head occurs later in the other sequence, so each is below the other
        var i :| 0 < i < |a| && a[i] == b[0];
        var j :| 0 < j < |b| && b[j] == a[0];
        BelowTransitive(a[0], b[0], a[0]);
        BelowIrreflexive(a[0]);
        assert false;
      }
      forall k ensures k in a[1..] <==> k in b[1..] {
        if k in a[1..] {
          var i :| 1 <= i < |a| && a[i] == k;
          assert Below(a[0], k);
          BelowIrreflexive(k);
          assert k != b[0];
          assert k in b;
        }
        if k in b[1..] {
          var i :| 1 <= i < |b| && b[i] == k;
          assert Below(b[0], k);
          BelowIrreflexive(k);
          assert k != a[0];
          assert k in a;
        }
      }
      AscendingOrderIsUnique(a[1..], b[1..]);
    } else if a != [] {
      HeadIsMember(a);
    } else if b != [] {
      HeadIsMember(b);
    }
  }
}
