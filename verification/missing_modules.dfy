/** Which "no module in symbolTable" errors can happen after a parse loop without failures. */
module MissingModules {
  import opened Words
  import opened Registration
  import opened RegistrationOrder
  import opened TwoPasses
  import opened SymbolTables
  import opened ParseWorklist
  import Rewrite = ImportRewrite
  import Oids = NumericOids
  import Types = BaseTypes

  /** The import map was built from a rewritten dictionary with these modules. */
  ghost predicate MapsFrom(importMap: map<string, string>, trans: string -> seq<string>, modules: seq<string>) {
    exists imports: Rewrite.Imports :: Rewrite.IsImportMap(importMap, imports, trans, modules)
  }

  /** The tables are those of the modules the loop parsed, each accepted and with the imports recorded for it. */
  ghost predicate CompiledFrom(s: Progress, mibs: map<string, Mib>, trans: string -> seq<string>) {
    && mibs.Keys == s.tables == s.parsed.Keys && "" !in mibs
    && forall mib :: mib in mibs ==> Accepted(mibs[mib]) && MapsFrom(mibs[mib].importMap, trans, s.parsed[mib])
  }

  /** Every module some name of a module refers to has a symbol table. */
  lemma ModulesArePresent(s: Progress, sources: seq<Source>, requested: seq<string>, mibs: map<string, Mib>,
                          trans: string -> seq<string>, mib: string, name: string)
    requires Consistent(s, sources, requested, []) && s.failed == {} && CompiledFrom(s, mibs, trans) && mib in mibs
    ensures ModuleOf(mibs[mib], mib, name) in mibs
  {
    var importMap, modules := mibs[mib].importMap, s.parsed[mib];
    if name in importMap {
      var imports: Rewrite.Imports :| Rewrite.IsImportMap(importMap, imports, trans, modules);
      assert Rewrite.LastIntroducing(imports, trans, modules, name, importMap[name]);
      assert Done(s, importMap[name]);
    }
  }

  // ----- object identifiers

  /** Every name in an identifier refers to a module with a table. */
  ghost predicate OidModulesPresent(table: Oids.Table) {
    forall k: Oids.Key, l: Oids.Key :: Oids.HasOid(table, k) && Oids.Ref(l) in Oids.OidAt(table, k) ==> l.1 in table
  }

  lemma {:induction false} NoModuleIsNoError(table: Oids.Table, oid: seq<Oids.Part>, depth: nat)
    requires OidModulesPresent(table) && forall l: Oids.Key :: Oids.Ref(l) in oid ==> l.1 in table
    ensures Oids.Expand(table, oid, depth) != Some(Oids.Failed(Oids.NoModule))
    decreases depth, |oid|
  {
    if oid != [] {
      var n := |oid| - 1;
      NoModuleIsNoError(table, oid[..n], depth);
      assert oid[n] in oid;
      if oid[n].Ref? && Oids.HasOid(table, oid[n].key) && depth > 0 {
        NoModuleIsNoError(table, Oids.OidAt(table, oid[n].key), depth - 1);
      }
    }
  }

  // ----- types

  /** Every type that is not a base type or a table class is in a module with a table. */
  ghost predicate TypeModulesPresent(table: Types.Table) {
    "" !in table && forall k: Types.Key :: Types.Has(table, k) ==>
      var (p, q) := Types.At(table, k).parent;
      q in table || (q == "" && p in {""} + BASE_TYPES + TABLE_CLASSES)
  }

  /** The symbol at which the chase from `k` stops. */
  function LastOf(table: Types.Table, k: Types.Key): (last: Types.Key)
    requires Types.Finishes(table, k) && Types.Has(table, k)
    ensures Types.Has(table, last) && !Types.GoesOn(table, last)
    decreases Types.Length(table, k)
  {
    if Types.GoesOn(table, k) then Types.ChaseNext(table, k); LastOf(table, Types.At(table, k).parent) else k
  }

  /** The chase from `k` stops at a table, a row or a fake column, whose class has no module. */
  predicate StopsAtTableClass(table: Types.Table, k: Types.Key)
    requires Types.Finishes(table, k) && Types.Has(table, k)
  {
    var (p, q) := Types.At(table, LastOf(table, k)).parent;
    p in TABLE_CLASSES && q == ""
  }

  lemma {:induction false} OnlyTableClassesLackModule(table: Types.Table, k: Types.Key)
    requires Types.Finishes(table, k) && Types.Has(table, k) && TypeModulesPresent(table)
    ensures Types.BaseOf(table, k) == Types.Failed(Types.NoModule) <==> StopsAtTableClass(table, k)
    decreases Types.Length(table, k)
  {
    if Types.GoesOn(table, k) {
      Types.ChaseNext(table, k);
      OnlyTableClassesLackModule(table, Types.At(table, k).parent);
    }
  }

  lemma TablesArePresent(s: Progress, sources: seq<Source>, requested: seq<string>, mibs: map<string, Mib>,
                         trans: string -> seq<string>, subs: Types.Key -> Types.EnumList?)
    requires Consistent(s, sources, requested, []) && s.failed == {} && CompiledFrom(s, mibs, trans)
    ensures OidModulesPresent(OidTable(mibs)) && TypeModulesPresent(TypeTable(mibs, subs))
  {
    forall k: Oids.Key, l: Oids.Key | Oids.HasOid(OidTable(mibs), k) && Oids.Ref(l) in Oids.OidAt(OidTable(mibs), k)
      ensures l.1 in OidTable(mibs)
    {
      AcceptedSymbols(mibs[k.1], k.1);
      ModulesArePresent(s, sources, requested, mibs, trans, k.1, l.0);
    }
    forall k: Types.Key | Types.Has(TypeTable(mibs, subs), k)
      ensures var (p, q) := Types.At(TypeTable(mibs, subs), k).parent;
        q in TypeTable(mibs, subs) || (q == "" && p in {""} + BASE_TYPES + TABLE_CLASSES)
    {
      var syntax := Types.At(TypeTable(mibs, subs), k).parent;
      AcceptedSymbols(mibs[k.1], k.1);
      assert TypeFits(mibs[k.1], k.1, SymtabOf(mibs[k.1]).out[k.0], syntax);
      ModulesArePresent(s, sources, requested, mibs, trans, k.1, syntax.0);
    }
  }

  /** If no module failed in the parse loop, no expansion of a stored identifier fails for a missing
      module, and a chase that ends does so exactly when it stops at a table class. */
  lemma NoFailureMeansNoMissingModule(
      s: Progress, sources: seq<Source>, requested: seq<string>, mibs: map<string, Mib>,
      trans: string -> seq<string>, subs: Types.Key -> Types.EnumList?)
    requires Consistent(s, sources, requested, []) && s.failed == {} && CompiledFrom(s, mibs, trans)
    ensures forall k: Oids.Key, depth: nat :: Oids.HasOid(OidTable(mibs), k) ==>
      Oids.Expand(OidTable(mibs), Oids.OidAt(OidTable(mibs), k), depth) != Some(Oids.Failed(Oids.NoModule))
    ensures var table := TypeTable(mibs, subs);
      forall k: Types.Key | Types.Finishes(table, k) && Types.Has(table, k) ::
        Types.BaseOf(table, k) == Types.Failed(Types.NoModule) <==> StopsAtTableClass(table, k)
  {
    TablesArePresent(s, sources, requested, mibs, trans, subs);
    forall k: Oids.Key, depth: nat | Oids.HasOid(OidTable(mibs), k)
      ensures Oids.Expand(OidTable(mibs), Oids.OidAt(OidTable(mibs), k), depth) != Some(Oids.Failed(Oids.NoModule))
    {
      NoModuleIsNoError(OidTable(mibs), Oids.OidAt(OidTable(mibs), k), depth);
    }
    var table := TypeTable(mibs, subs);
    forall k: Types.Key | Types.Finishes(table, k) && Types.Has(table, k)
      ensures Types.BaseOf(table, k) == Types.Failed(Types.NoModule) <==> StopsAtTableClass(table, k)
    {
      OnlyTableClassesLackModule(table, k);
    }
  }

  // ----- a table alone

  /** A module whose only declaration is a table of rows is accepted, and the chase from the table fails for
      a missing module. */
  lemma TableLacksModule(mibs: map<string, Mib>, mib: string, t: string, row: string,
                         subs: Types.Key -> Types.EnumList?)
    requires mib in mibs && |mibs[mib].keys| == 2 && "" !in mibs
    requires mibs[mib].ds == [ObjectType(t, [Numbered(1)], ConceptualTable(row), None, 0)]
    ensures Accepted(mibs[mib])
    ensures var (table, k) := (TypeTable(mibs, subs), (t, mib));
      && Types.Has(table, k) && Types.Finishes(table, k) && StopsAtTableClass(table, k)
      && Types.BaseOf(table, k) == Types.Failed(Types.NoModule)
  {
    var m, d := mibs[mib], mibs[mib].ds[0];
    TableEvents(m.fakeidx, d);
    TableRun(m.importMap.Keys, t, row, m.keys);
    TableInfos(m, mib, d);
    ChaseStops(TypeTable(mibs, subs), (t, mib));
  }

  lemma TableInfos(m: Mib, mib: string, d: Declaration)
    requires m.ds == [d] && d.ObjectType? && d.syntax.ConceptualTable? && d.smiv1Indexes == 0
    ensures var infos := Infos(m, mib, m.ds); infos.Keys == {d.name} && infos[d.name].syntax == ("MibTable", "")
  {
    assert m.ds[..0] == [];
    assert Infos(m, mib, []) == map[];
    assert Infos(m, mib, m.ds) == InfosOf(m, mib, {}, m.fakeidx, d);
  }

  lemma ChaseStops(table: Types.Table, k: Types.Key)
    requires Types.Has(table, k) && Types.At(table, k).parent == ("MibTable", "") && "" !in table
    ensures Types.Finishes(table, k) && StopsAtTableClass(table, k)
    ensures Types.BaseOf(table, k) == Types.Failed(Types.NoModule)
  {
    assert k in Types.Keys(table);
    assert Types.Chase(table, k, |Types.Keys(table)|) == [k];
  }

  lemma TableEvents(fakeidx: nat, d: Declaration)
    requires d.ObjectType? && d.syntax.ConceptualTable? && d.oid == [Numbered(1)] && d.augments == None &&
      d.smiv1Indexes == 0
    ensures AllEvents(fakeidx, [d]) == [Row(d.syntax.row), Symbol(d.name, ["MibTable"])]
  {
    assert [d][..0] == [] && d.oid[..0] == [];
    assert OidNames(d.oid) == [];
    assert Parents({}, d.syntax, d.augments) == ["MibTable"];
    assert AllEvents(fakeidx, [d]) == AllEvents(fakeidx, []) + EventsOf({}, fakeidx, d);
  }

  lemma TableRun(imports: set<string>, t: string, row: string, keys: seq<seq<string>>)
    requires |keys| == 2
    ensures GenCode(imports, [Row(row), Symbol(t, ["MibTable"])], keys).Ok?
  {
    var events, start := [Row(row), Symbol(t, ["MibTable"])], Empty(imports);
    var s1 := start.(rows := {row});
    assert Apply(start, Row(row), keys[0]) == Ok(s1) by {
      assert {} + {row} == {row};
    }
    assert events[..1][..0] == [] && keys[..1][..0] == [] && ApplyAll(start, [], []) == Ok(start);
    assert ApplyAll(start, events[..1], keys[..1]) == Ok(s1);
    RegisteredAtOnce(s1, t, ["MibTable"], keys[1]);
  }
}
