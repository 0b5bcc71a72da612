/**
 * The static table saying which schema each exported WIT function of the
 * `greentic:component@0.6.0` world returns.
 */
module WitMap {
  import opened Wrappers
  import opened Primitives

  datatype WitReturnSchema = WitReturnSchema(world: string, interface: string, func: string, schemaId: string, version: u32)

  const World: string := "greentic:component@0.6.0"

  /** The mapping table, in declaration order. */
  const WitReturns: seq<WitReturnSchema> := [
    WitReturnSchema(World, "component-descriptor", "get-component-info", "greentic.component.info@0.6.0", 6),
    WitReturnSchema(World, "component-descriptor", "describe", "greentic.component.describe@0.6.0", 6),
    WitReturnSchema(World, "component-qa", "qa-spec", "greentic.component.qa@0.6.0", 6),
    WitReturnSchema(World, "component-qa", "apply-answers", "greentic.component.config@0.6.0", 6),
    WitReturnSchema(World, "component-schema", "input-schema", "greentic.component.schema@0.6.0", 6),
    WitReturnSchema(World, "component-schema", "output-schema", "greentic.component.schema@0.6.0", 6),
    WitReturnSchema(World, "component-schema", "config-schema", "greentic.component.schema@0.6.0", 6)
  ]

  /** Some entry of `table` maps (interface, func) to schemaId: the `iter().any(..)` the table is queried with. */
  predicate HasEntry(table: seq<WitReturnSchema>, interface: string, func: string, schemaId: string) {
    exists i :: 0 <= i < |table| && table[i].interface == interface && table[i].func == func && table[i].schemaId == schemaId
  }

  /** The schema id of the first entry for (interface, func), if there is one. */
  function SchemaIdFor(table: seq<WitReturnSchema>, interface: string, func: string): (r: Option<string>)
    ensures r.None? <==> forall i :: 0 <= i < |table| ==> !(table[i].interface == interface && table[i].func == func)
    ensures r.Some? ==> HasEntry(table, interface, func, r.value)
  {
    if table == [] then None
    else if table[0].interface == interface && table[0].func == func then Some(table[0].schemaId)
    else
      var rest := SchemaIdFor(table[1..], interface, func);
      assert forall i :: 1 <= i < |table| ==> table[i] == table[1..][i - 1];
      rest
  }

  /** No two entries share an (interface, func) pair. */
  predicate PairsDistinct(table: seq<WitReturnSchema>) {
    forall i, j :: 0 <= i < j < |table| ==> (table[i].interface, table[i].func) != (table[j].interface, table[j].func)
  }

  /** With distinct pairs, an export is mapped to one schema id at most, and lookup finds it. */
  lemma {:induction false} DistinctPairsMakeLookupExact(table: seq<WitReturnSchema>, interface: string, func: string, schemaId: string)
    requires PairsDistinct(table)
    ensures HasEntry(table, interface, func, schemaId) <==> SchemaIdFor(table, interface, func) == Some(schemaId)
  {
    if HasEntry(table, interface, func, schemaId) {
      var i :| 0 <= i < |table| && table[i].interface == interface && table[i].func == func && table[i].schemaId == schemaId;
      var r := SchemaIdFor(table, interface, func);
      var j :| 0 <= j < |table| && table[j].interface == interface && table[j].func == func && table[j].schemaId == r.value;
      assert !(i < j) && !(j < i);
    }
  }

  /** The table has seven entries, all in the 0.6.0 world at version 6, with distinct pairs. */
  lemma TableShape()
    ensures |WitReturns| == 7
    ensures forall e :: e in WitReturns ==> e.world == "greentic:component@0.6.0" && e.version == 6
    ensures PairsDistinct(WitReturns)
  {
  }

  /** Looking up the pair of any entry of the table gives that entry's schema id. */
  lemma LookupFindsEntry(i: nat)
    requires i < |WitReturns|
    ensures SchemaIdFor(WitReturns, WitReturns[i].interface, WitReturns[i].func) == Some(WitReturns[i].schemaId)
  {
    TableShape();
    DistinctPairsMakeLookupExact(WitReturns, WitReturns[i].interface, WitReturns[i].func, WitReturns[i].schemaId);
  }

  /** Each export of the world maps to the schema it returns. */
  lemma TableCoversComponentExports()
    ensures SchemaIdFor(WitReturns, "component-descriptor", "describe") == Some("greentic.component.describe@0.6.0")
    ensures SchemaIdFor(WitReturns, "component-descriptor", "get-component-info") == Some("greentic.component.info@0.6.0")
    ensures SchemaIdFor(WitReturns, "component-qa", "qa-spec") == Some("greentic.component.qa@0.6.0")
    ensures SchemaIdFor(WitReturns, "component-qa", "apply-answers") == Some("greentic.component.config@0.6.0")
    ensures SchemaIdFor(WitReturns, "component-schema", "input-schema") == Some("greentic.component.schema@0.6.0")
    ensures SchemaIdFor(WitReturns, "component-schema", "output-schema") == Some("greentic.component.schema@0.6.0")
    ensures SchemaIdFor(WitReturns, "component-schema", "config-schema") == Some("greentic.component.schema@0.6.0")
  {
    LookupFindsEntry(0);
    LookupFindsEntry(1);
    LookupFindsEntry(2);
    LookupFindsEntry(3);
    LookupFindsEntry(4);
    LookupFindsEntry(5);
    LookupFindsEntry(6);
  }

  /** Only the seven listed exports are mapped. */
  lemma UnlistedExportIsUnmapped(interface: string, func: string)
    requires (interface, func) !in {
      ("component-descriptor", "get-component-info"), ("component-descriptor", "describe"),
      ("component-qa", "qa-spec"), ("component-qa", "apply-answers"),
      ("component-schema", "input-schema"), ("component-schema", "output-schema"),
      ("component-schema", "config-schema")}
    ensures SchemaIdFor(WitReturns, interface, func) == None
  {
  }
}
