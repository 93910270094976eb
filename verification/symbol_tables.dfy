/** The symbol tables built from accepted modules: what code generation looks up in them. */
module SymbolTables {
  import opened Words
  import opened Pigeonhole
  import opened Registration
  import opened RegistrationOrder
  import opened TwoPasses
  import Oids = NumericOids
  import Types = BaseTypes

  /** A parsed module: its import map, the counter of fake columns when the generator met it, its
      declarations, and the dictionary orders met while registering them. */
  datatype Mib = Mib(importMap: map<string, string>, fakeidx: nat, ds: seq<Declaration>, keys: seq<seq<string>>)

  predicate Accepted(m: Mib) {
    |m.keys| == |AllEvents(m.fakeidx, m.ds)| && GenCode(m.importMap.Keys, AllEvents(m.fakeidx, m.ds), m.keys).Ok?
  }

  function SymtabOf(m: Mib): Symtab
    requires Accepted(m)
  {
    GenCode(m.importMap.Keys, AllEvents(m.fakeidx, m.ds), m.keys).value
  }

  /** The module a name refers to: the one it is imported from, or the module itself. */
  function ModuleOf(m: Mib, mib: string, name: string): string {
    if name in m.importMap then m.importMap[name] else mib
  }

  // ----- what is stored for a symbol

  /** The object identifier and the type of a symbol; a symbol without syntax has the type name "". */
  datatype Info = Info(oid: Option<seq<Oids.Part>>, syntax: Types.Key)

  function PartOf(m: Mib, mib: string, item: OidItem): Oids.Part {
    match item
    case Named(name) => Oids.Ref((name, ModuleOf(m, mib, name)))
    case Numbered(n) => Oids.Number(n)
  }

  function Parts(m: Mib, mib: string, oid: seq<OidItem>): seq<Oids.Part> {
    seq(|oid|, i requires 0 <= i < |oid| => PartOf(m, mib, oid[i]))
  }

  /** Base types and table classes have no module. */
  function SyntaxKey(m: Mib, mib: string, rows: set<string>, syntax: Syntax): Types.Key {
    var name := TypeName(rows, syntax);
    if syntax.ConceptualTable? || (syntax.RowOrType? && syntax.name in rows) || name in BASE_TYPES then (name, "")
    else (name, ModuleOf(m, mib, name))
  }

  function FakeInfos(oid: seq<Oids.Part>, fakeidx: nat, n: nat): map<string, Info> {
    if n == 0 then map[] else
    var i := fakeidx + n - 1;
    FakeInfos(oid, fakeidx, n - 1)[FakeName(i) := Info(Some(oid + [Oids.Number(i)]), ("MibTableColumn", ""))]
  }

  function InfosOf(m: Mib, mib: string, rows: set<string>, fakeidx: nat, d: Declaration): map<string, Info> {
    match d
    case Clause(name, oid) => map[name := Info(Some(Parts(m, mib, oid)), ("", ""))]
    case ObjectType(name, oid, syntax, _, n) =>
      FakeInfos(Parts(m, mib, oid), fakeidx, n)[name := Info(Some(Parts(m, mib, oid)), SyntaxKey(m, mib, rows, syntax))]
    case TypeDeclaration(name, syntax) =>
      if syntax.Some? then map[name := Info(None, SyntaxKey(m, mib, rows, syntax.value))] else map[]
  }

  function Infos(m: Mib, mib: string, ds: seq<Declaration>): map<string, Info> {
    if ds == [] then map[] else
    var n := |ds| - 1;
    Infos(m, mib, ds[..n]) + InfosOf(m, mib, RowsAfter(ds[..n]), CounterAfter(m.fakeidx, ds[..n]), ds[n])
  }

  /** The object identifiers of all modules. */
  function OidTable(mibs: map<string, Mib>): Oids.Table {
    map mib | mib in mibs ::
      var infos := Infos(mibs[mib], mib, mibs[mib].ds);
      map s | s in infos :: infos[s].oid
  }

  /** The types of all modules; `subs` gives the list of each symbol that has one. */
  function TypeTable(mibs: map<string, Mib>, subs: Types.Key -> Types.EnumList?): Types.Table {
    map mib | mib in mibs ::
      var infos := Infos(mibs[mib], mib, mibs[mib].ds);
      map s | s in infos :: Types.Entry(infos[s].syntax, subs((s, mib)))
  }

  // ----- the stored symbols are the registered ones, with their parents

  /** No type, a base type or a table class, or a parent in its module. */
  predicate TypeFits(m: Mib, mib: string, parents: seq<string>, syntax: Types.Key) {
    || (syntax.1 == "" && syntax.0 in {""} + BASE_TYPES + TABLE_CLASSES)
    || (syntax.0 in parents && syntax.1 == ModuleOf(m, mib, syntax.0))
  }

  /** What a registered symbol's entry says: its type is a parent, its identifier names known parents. */
  ghost predicate Fits(m: Mib, mib: string, events: seq<Event>, parents: seq<string>, info: Info) {
    && TypeFits(m, mib, parents, info.syntax)
    && (info.oid.Some? ==> forall k :: Oids.Ref(k) in info.oid.value ==>
          k.1 == ModuleOf(m, mib, k.0) && OidParent(k.0) in events)
  }

  ghost predicate Registers(m: Mib, mib: string, events: seq<Event>, s: string, info: Info) {
    exists parents :: Symbol(s, parents) in events && Fits(m, mib, events, parents, info)
  }

  ghost predicate AllRegister(m: Mib, mib: string, events: seq<Event>, infos: map<string, Info>) {
    forall s :: s in infos ==> Registers(m, mib, events, s, infos[s])
  }

  lemma RegisterOneMore(m: Mib, mib: string, events: seq<Event>, infos: map<string, Info>, name: string, info: Info,
                        parents: seq<string>)
    requires AllRegister(m, mib, events, infos) && Symbol(name, parents) in events &&
      Fits(m, mib, events, parents, info)
    ensures AllRegister(m, mib, events, infos[name := info])
  {
    assert Registers(m, mib, events, name, info);
  }

  lemma {:induction false} NamesOfOid(oid: seq<OidItem>, name: string)
    ensures Named(name) in oid ==> OidParent(name) in OidEvents(OidNames(oid))
  {
    if oid != [] {
      var n := |oid| - 1;
      NamesOfOid(oid[..n], name);
      assert oid == oid[..n] + [oid[n]];
      var before, all := OidNames(oid[..n]), OidNames(oid);
      assert forall i :: 0 <= i < |before| ==> OidEvents(all)[i] == OidEvents(before)[i];
      if oid[n] == Named(name) {
        assert OidEvents(all)[|before|] == OidParent(name);
      }
    }
  }

  lemma PartsFit(m: Mib, mib: string, oid: seq<OidItem>)
    ensures forall k :: Oids.Ref(k) in Parts(m, mib, oid) ==>
      k.1 == ModuleOf(m, mib, k.0) && OidParent(k.0) in OidEvents(OidNames(oid))
  {
    var parts := Parts(m, mib, oid);
    forall k | Oids.Ref(k) in parts
      ensures k.1 == ModuleOf(m, mib, k.0) && OidParent(k.0) in OidEvents(OidNames(oid))
    {
      var i :| 0 <= i < |parts| && parts[i] == Oids.Ref(k);
      assert oid[i] == Named(k.0);
      NamesOfOid(oid, k.0);
    }
  }

  lemma {:induction false} FakesRegister(m: Mib, mib: string, oid: seq<OidItem>, fakeidx: nat, n: nat,
                                         events: seq<Event>)
    requires forall e :: e in OidEvents(OidNames(oid)) ==> e in events
    requires forall e :: e in FakeEvents(FakeNames(fakeidx, n)) ==> e in events
    ensures AllRegister(m, mib, events, FakeInfos(Parts(m, mib, oid), fakeidx, n))
    ensures forall s :: s in FakeInfos(Parts(m, mib, oid), fakeidx, n) <==> s in FakeNames(fakeidx, n)
  {
    if n > 0 {
      var before, all := FakeNames(fakeidx, n - 1), FakeNames(fakeidx, n);
      var name := FakeName(fakeidx + n - 1);
      assert forall i :: 0 <= i < |before| ==> FakeEvents(all)[i] == FakeEvents(before)[i];
      assert forall e :: e in FakeEvents(before) ==> e in FakeEvents(all);
      FakesRegister(m, mib, oid, fakeidx, n - 1, events);
      assert FakeEvents(all)[|before|] == Symbol(name, []);
      PartsFit(m, mib, oid);
      var info := FakeInfos(Parts(m, mib, oid), fakeidx, n)[name];
      RegisterOneMore(m, mib, events, FakeInfos(Parts(m, mib, oid), fakeidx, n - 1), name, info, []);
    }
  }

  lemma SyntaxFits(m: Mib, mib: string, rows: set<string>, syntax: Syntax, augments: Option<string>)
    ensures TypeFits(m, mib, Parents(rows, syntax, augments), SyntaxKey(m, mib, rows, syntax))
  {
    assert Parents(rows, syntax, augments)[0] == TypeName(rows, syntax);
  }

  lemma DeclarationRegisters(m: Mib, mib: string, rows: set<string>, fakeidx: nat, d: Declaration, events: seq<Event>)
    requires forall e :: e in EventsOf(rows, fakeidx, d) ==> e in events
    ensures var infos := InfosOf(m, mib, rows, fakeidx, d);
      && AllRegister(m, mib, events, infos)
      && infos.Keys == set s | s in Generated(fakeidx, d)
  {
    var own := EventsOf(rows, fakeidx, d);
    var infos := InfosOf(m, mib, rows, fakeidx, d);
    match d {
      case Clause(name, oid) =>
        PartsFit(m, mib, oid);
        assert own[|own| - 1] == Symbol(name, []);
        assert Fits(m, mib, events, [], infos[name]);
      case ObjectType(name, oid, syntax, augments, n) =>
        ObjectRegisters(m, mib, rows, fakeidx, d, events);
      case TypeDeclaration(name, syntax) =>
        if syntax.Some? {
          SyntaxFits(m, mib, rows, syntax.value, None);
          assert own[|own| - 1] == Symbol(name, Parents(rows, syntax.value, None));
          assert Fits(m, mib, events, Parents(rows, syntax.value, None), infos[name]);
        }
    }
  }

  lemma ObjectRegisters(m: Mib, mib: string, rows: set<string>, fakeidx: nat, d: Declaration, events: seq<Event>)
    requires d.ObjectType? && forall e :: e in EventsOf(rows, fakeidx, d) ==> e in events
    ensures var infos := InfosOf(m, mib, rows, fakeidx, d);
      && AllRegister(m, mib, events, infos)
      && infos.Keys == set s | s in Generated(fakeidx, d)
  {
    var own, infos := EventsOf(rows, fakeidx, d), InfosOf(m, mib, rows, fakeidx, d);
    var fakes, parents := FakeEvents(FakeNames(fakeidx, d.smiv1Indexes)), Parents(rows, d.syntax, d.augments);
    assert own == RowEvents(rows, d.syntax) + OidEvents(OidNames(d.oid)) + fakes + [Symbol(d.name, parents)];
    FakesRegister(m, mib, d.oid, fakeidx, d.smiv1Indexes, events);
    PartsFit(m, mib, d.oid);
    SyntaxFits(m, mib, rows, d.syntax, d.augments);
    var columns := FakeInfos(Parts(m, mib, d.oid), fakeidx, d.smiv1Indexes);
    RegisterOneMore(m, mib, events, columns, d.name, infos[d.name], parents);
  }

  /** The stored symbols are exactly the generated ones, each with the parents it was registered with. */
  lemma {:induction false} StoredSymbols(m: Mib, mib: string, ds: seq<Declaration>, events: seq<Event>)
    requires forall e :: e in AllEvents(m.fakeidx, ds) ==> e in events
    ensures var infos := Infos(m, mib, ds);
      && AllRegister(m, mib, events, infos)
      && infos.Keys == set s | s in AllGenerated(m.fakeidx, ds)
  {
    if ds != [] {
      var n := |ds| - 1;
      StoredSymbols(m, mib, ds[..n], events);
      DeclarationRegisters(m, mib, RowsAfter(ds[..n]), CounterAfter(m.fakeidx, ds[..n]), ds[n], events);
    }
  }

  /** An accepted module stores exactly the symbols it registered. A type that is not a base type or a table
      class is one of the parents of its symbol; a name in an identifier is imported or in the module. */
  lemma AcceptedSymbols(m: Mib, mib: string)
    requires Accepted(m)
    ensures var st := SymtabOf(m); var infos := Infos(m, mib, m.ds);
      && WellOrdered(st) && st.postponed == map[] && st.imports == m.importMap.Keys
      && infos.Keys == st.out.Keys
      && (forall s :: s in infos ==> TypeFits(m, mib, st.out[s], infos[s].syntax))
      && (forall s, k :: s in infos && infos[s].oid.Some? && Oids.Ref(k) in infos[s].oid.value ==>
            k.1 == ModuleOf(m, mib, k.0) && (k.0 in infos || k.0 in m.importMap))
  {
    var st, infos, events := SymtabOf(m), Infos(m, mib, m.ds), AllEvents(m.fakeidx, m.ds);
    AcceptedModule(m.importMap.Keys, events, m.keys);
    StoredSymbols(m, mib, m.ds, events);
    PassesAgree(m.importMap.Keys, m.fakeidx, m.ds, m.keys);
    assert forall s :: s in st.order <==> s in st.out;
  }
}
