/** What the table of an accepted module holds for each declaration. */
module StoredSymbols {
  import opened Words
  import opened Pigeonhole
  import opened Registration
  import opened RegistrationOrder
  import opened TwoPasses
  import opened SymbolTables
  import Oids = NumericOids
  import Types = BaseTypes

  // ----- each declaration keeps its entry

  lemma {:induction false} GeneratedPart(fakeidx: nat, ds: seq<Declaration>, i: nat, s: string)
    requires i < |ds| && s in Generated(CounterAfter(fakeidx, ds[..i]), ds[i])
    ensures s in AllGenerated(fakeidx, ds)
    decreases |ds|
  {
    var n := |ds| - 1;
    if i < n {
      assert ds[..n][..i] == ds[..i] && ds[..n][i] == ds[i];
      GeneratedPart(fakeidx, ds[..n], i, s);
    }
  }

  lemma InfosOfNames(m: Mib, mib: string, rows: set<string>, fakeidx: nat, d: Declaration)
    ensures InfosOf(m, mib, rows, fakeidx, d).Keys == set s | s in Generated(fakeidx, d)
  {
    DeclarationRegisters(m, mib, rows, fakeidx, d, EventsOf(rows, fakeidx, d));
  }

  lemma {:induction false} EntryStays(m: Mib, mib: string, ds: seq<Declaration>, i: nat, s: string)
    requires NoRepeats(AllGenerated(m.fakeidx, ds)) && i < |ds|
    requires s in Generated(CounterAfter(m.fakeidx, ds[..i]), ds[i])
    ensures var own := InfosOf(m, mib, RowsAfter(ds[..i]), CounterAfter(m.fakeidx, ds[..i]), ds[i]);
      s in own && s in Infos(m, mib, ds) && Infos(m, mib, ds)[s] == own[s]
    decreases |ds|
  {
    var n := |ds| - 1;
    var before, more := AllGenerated(m.fakeidx, ds[..n]), Generated(CounterAfter(m.fakeidx, ds[..n]), ds[n]);
    InfosOfNames(m, mib, RowsAfter(ds[..i]), CounterAfter(m.fakeidx, ds[..i]), ds[i]);
    InfosOfNames(m, mib, RowsAfter(ds[..n]), CounterAfter(m.fakeidx, ds[..n]), ds[n]);
    if i < n {
      assert ds[..n][..i] == ds[..i] && ds[..n][i] == ds[i];
      PartsHaveNoRepeats(before, more);
      EntryStays(m, mib, ds[..n], i, s);
      GeneratedPart(m.fakeidx, ds[..n], i, s);
      NewNames(before, more);
    }
  }

  // ----- the entries

  /** The parts of an identifier as stored: numbers as they are, names with the module they come from. */
  predicate StoredOid(m: Mib, mib: string, oid: seq<OidItem>, parts: seq<Oids.Part>) {
    |parts| == |oid| &&
    forall i :: 0 <= i < |oid| ==>
      match oid[i]
      case Numbered(n) => parts[i] == Oids.Number(n)
      case Named(name) => parts[i] == Oids.Ref((name, if name in m.importMap then m.importMap[name] else mib))
  }

  /** The type as stored, when `rows` are the rows met before. */
  predicate StoredType(m: Mib, mib: string, rows: set<string>, syntax: Syntax, key: Types.Key) {
    match syntax
    case ConceptualTable(_) => key == ("MibTable", "")
    case RowOrType(name) => key == if name in rows then ("MibTableRow", "") else NamedType(m, mib, name)
    case Simple(name) => key == NamedType(m, mib, name)
  }

  function NamedType(m: Mib, mib: string, name: string): Types.Key {
    if name in ["Integer", "Integer32", "Bits", "ObjectIdentifier", "OctetString"] then (name, "")
    else (name, if name in m.importMap then m.importMap[name] else mib)
  }

  lemma {:induction false} FakeEntry(oid: seq<Oids.Part>, fakeidx: nat, n: nat, j: nat)
    requires j < n
    ensures FakeName(fakeidx + j) in FakeInfos(oid, fakeidx, n)
    ensures FakeInfos(oid, fakeidx, n)[FakeName(fakeidx + j)] ==
      Info(Some(oid + [Oids.Number(fakeidx + j)]), ("MibTableColumn", ""))
  {
    if j < n - 1 {
      FakeEntry(oid, fakeidx, n - 1, j);
      if FakeName(fakeidx + j) == FakeName(fakeidx + n - 1) {
        FakeNamesDiffer(fakeidx + j, fakeidx + n - 1);
      }
    }
  }

  lemma {:induction false} FakeIsGenerated(fakeidx: nat, n: nat, j: nat)
    requires j < n
    ensures FakeName(fakeidx + j) in FakeNames(fakeidx, n)
  {
    InFakeNames(fakeidx, n, FakeName(fakeidx + j));
  }

  ghost predicate NoRepeatedSymbol(m: Mib) {
    NoRepeats(AllGenerated(m.fakeidx, m.ds))
  }

  lemma AcceptedHasNoRepeatedSymbol(m: Mib)
    requires Accepted(m)
    ensures NoRepeatedSymbol(m)
  {
    PassesAgree(m.importMap.Keys, m.fakeidx, m.ds, m.keys);
  }

  /** Every clause and every object of an accepted module is stored with its identifier, part by part, and
      every object and type with its type; a clause has no type and a type no identifier. */
  lemma DeclarationIsStored(m: Mib, mib: string, i: nat)
    requires Accepted(m) && i < |m.ds|
    ensures var (d, infos) := (m.ds[i], Infos(m, mib, m.ds));
      match d
      case Clause(name, oid) =>
        && name in infos && infos[name].syntax == ("", "")
        && infos[name].oid.Some? && StoredOid(m, mib, oid, infos[name].oid.value)
      case ObjectType(name, oid, syntax, _, _) =>
        && name in infos && StoredType(m, mib, RowsAfter(m.ds[..i]), syntax, infos[name].syntax)
        && infos[name].oid.Some? && StoredOid(m, mib, oid, infos[name].oid.value)
      case TypeDeclaration(name, None) => true
      case TypeDeclaration(name, Some(syntax)) =>
        && name in infos && StoredType(m, mib, RowsAfter(m.ds[..i]), syntax, infos[name].syntax)
        && infos[name].oid.None?
  {
    var d := m.ds[i];
    AcceptedHasNoRepeatedSymbol(m);
    if d.TypeDeclaration? ==> d.typeSyntax.Some? {
      EntryStays(m, mib, m.ds, i, d.name);
    }
  }

  /** Every SMIv1 index of an object gives a fake column, numbered on from the counter: the identifier of the
      object with that number behind it, and no type to chase. */
  lemma FakeColumnIsStored(m: Mib, mib: string, i: nat, j: nat)
    requires Accepted(m) && i < |m.ds| && m.ds[i].ObjectType? && j < m.ds[i].smiv1Indexes
    ensures var (infos, number) := (Infos(m, mib, m.ds), CounterAfter(m.fakeidx, m.ds[..i]) + j);
      && m.ds[i].name in infos && infos[m.ds[i].name].oid.Some?
      && FakeName(number) in infos
      && infos[FakeName(number)] ==
           Info(Some(infos[m.ds[i].name].oid.value + [Oids.Number(number)]), ("MibTableColumn", ""))
  {
    var d, c := m.ds[i], CounterAfter(m.fakeidx, m.ds[..i]);
    AcceptedHasNoRepeatedSymbol(m);
    EntryStays(m, mib, m.ds, i, d.name);
    FakeIsGenerated(c, d.smiv1Indexes, j);
    EntryStays(m, mib, m.ds, i, FakeName(c + j));
    FakeEntry(Parts(m, mib, d.oid), c, d.smiv1Indexes, j);
    FakeIsNew(m, i, j);
  }

  lemma FakeIsNew(m: Mib, i: nat, j: nat)
    requires NoRepeatedSymbol(m) && i < |m.ds| && m.ds[i].ObjectType? && j < m.ds[i].smiv1Indexes
    ensures FakeName(CounterAfter(m.fakeidx, m.ds[..i]) + j) != m.ds[i].name
  {
    CounterGrows(m.fakeidx, m.ds, i);
    FakesAreNotDeclared(m.fakeidx, m.ds, CounterAfter(m.fakeidx, m.ds[..i]) + j);
    assert m.ds[i] in m.ds;
  }

  lemma {:induction false} CounterGrows(fakeidx: nat, ds: seq<Declaration>, i: nat)
    requires i < |ds|
    ensures fakeidx <= CounterAfter(fakeidx, ds[..i])
    ensures CounterAfter(fakeidx, ds[..i]) + FakesUsed(ds[i]) <= CounterAfter(fakeidx, ds)
    decreases |ds|
  {
    CounterMoves(fakeidx, ds[..i]);
    var n := |ds| - 1;
    if i < n {
      assert ds[..n][..i] == ds[..i];
      CounterGrows(fakeidx, ds[..n], i);
    }
  }

  /** The fake columns have their number written behind a fixed name. */
  lemma FakeNameText()
    ensures FakeName(1000) == "pysmiFakeCol1000"
    ensures forall i :: FakeName(i) == "pysmiFakeCol" + Decimal(i)
  {
    assert Decimal(1) == "1" && Decimal(10) == "10" && Decimal(100) == "100" && Decimal(1000) == "1000";
  }

  /** The tables code generation reads hold these entries. */
  lemma TablesHoldEntries(mibs: map<string, Mib>, subs: Types.Key -> Types.EnumList?, mib: string, s: string)
    requires mib in mibs
    ensures mib in OidTable(mibs) && mib in TypeTable(mibs, subs)
    ensures var infos := Infos(mibs[mib], mib, mibs[mib].ds);
      && (s in OidTable(mibs)[mib] <==> s in infos) && (s in TypeTable(mibs, subs)[mib] <==> s in infos)
      && (s in infos ==>
           && OidTable(mibs)[mib][s] == infos[s].oid
           && TypeTable(mibs, subs)[mib][s] == Types.Entry(infos[s].syntax, subs((s, mib))))
  {
  }

  // ----- rows and parents

  function RowNamed(d: Declaration): Option<string> {
    match SyntaxOf(d)
    case Some(ConceptualTable(row)) => Some(row)
    case _ => None
  }

  predicate NamesRow(ds: seq<Declaration>, row: string) {
    exists i :: 0 <= i < |ds| && RowNamed(ds[i]) == Some(row)
  }

  predicate NamesRowTwice(ds: seq<Declaration>) {
    exists i, j :: 0 <= i < j < |ds| && RowNamed(ds[i]).Some? && RowNamed(ds[i]) == RowNamed(ds[j])
  }

  /** The rows are the names tables give their rows; a second table of the same rows adds the row class. */
  lemma {:induction false} RowsExactly(ds: seq<Declaration>, row: string)
    ensures row in RowsAfter(ds) <==> NamesRow(ds, row) || (row == "MibTableRow" && NamesRowTwice(ds))
  {
    if ds != [] {
      var n := |ds| - 1;
      RowsExactly(ds[..n], row);
      NamesNext(ds, row);
      if RowNamed(ds[n]).Some? {
        RowsExactly(ds[..n], RowNamed(ds[n]).value);
        NamesNext(ds, RowNamed(ds[n]).value);
      }
    }
  }

  lemma NamesNext(ds: seq<Declaration>, row: string)
    requires ds != []
    ensures var n := |ds| - 1;
      && (NamesRow(ds, row) <==> NamesRow(ds[..n], row) || RowNamed(ds[n]) == Some(row))
      && (NamesRowTwice(ds) <==>
            NamesRowTwice(ds[..n]) || (RowNamed(ds[n]).Some? && NamesRow(ds[..n], RowNamed(ds[n]).value)))
  {
    var n := |ds| - 1;
    assert forall i :: 0 <= i < n ==> ds[..n][i] == ds[i];
    if RowNamed(ds[n]).Some? && NamesRow(ds[..n], RowNamed(ds[n]).value) {
      var i :| 0 <= i < n && RowNamed(ds[..n][i]) == Some(RowNamed(ds[n]).value);
      assert RowNamed(ds[i]) == RowNamed(ds[n]);
    }
    if NamesRowTwice(ds[..n]) {
      var i, j :| 0 <= i < j < n && RowNamed(ds[..n][i]).Some? && RowNamed(ds[..n][i]) == RowNamed(ds[..n][j]);
      assert RowNamed(ds[i]).Some? && RowNamed(ds[i]) == RowNamed(ds[j]);
    }
  }

  lemma LastEvents(fakeidx: nat, ds: seq<Declaration>, e: Event)
    requires ds != []
    ensures var n := |ds| - 1;
      e in AllEvents(fakeidx, ds) <==>
        || e in AllEvents(fakeidx, ds[..n])
        || e in EventsOf(RowsAfter(ds[..n]), CounterAfter(fakeidx, ds[..n]), ds[n])
  {
  }

  lemma {:induction false} EventsGrow(fakeidx: nat, ds: seq<Declaration>, i: nat, e: Event)
    requires i <= |ds| && e in AllEvents(fakeidx, ds[..i])
    ensures e in AllEvents(fakeidx, ds)
    decreases |ds|
  {
    if i == |ds| {
      assert ds[..i] == ds;
    } else {
      LastEvents(fakeidx, ds, e);
      assert ds[..|ds| - 1][..i] == ds[..i];
      EventsGrow(fakeidx, ds[..|ds| - 1], i, e);
    }
  }

  lemma EventsPart(fakeidx: nat, ds: seq<Declaration>, i: nat, e: Event)
    requires i < |ds| && e in EventsOf(RowsAfter(ds[..i]), CounterAfter(fakeidx, ds[..i]), ds[i])
    ensures e in AllEvents(fakeidx, ds)
  {
    var upTo := ds[..i + 1];
    assert upTo[..i] == ds[..i];
    LastEvents(fakeidx, upTo, e);
    EventsGrow(fakeidx, ds, i + 1, e);
  }

  /** The parents a symbol is registered with: its type, and the row it augments. */
  lemma DeclarationHasParents(m: Mib, mib: string, i: nat)
    requires Accepted(m) && i < |m.ds|
    ensures var (d, out, infos) := (m.ds[i], SymtabOf(m).out, Infos(m, mib, m.ds));
      match d
      case Clause(name, _) => name in out && out[name] == []
      case ObjectType(name, _, _, augments, _) =>
        && name in out && name in infos
        && out[name] == [infos[name].syntax.0] + (match augments case None => [] case Some(row) => [row])
      case TypeDeclaration(name, None) => true
      case TypeDeclaration(name, Some(_)) => name in out && name in infos && out[name] == [infos[name].syntax.0]
  {
    var d := m.ds[i];
    var rows, c := RowsAfter(m.ds[..i]), CounterAfter(m.fakeidx, m.ds[..i]);
    var events := EventsOf(rows, c, d);
    AcceptedModule(m.importMap.Keys, AllEvents(m.fakeidx, m.ds), m.keys);
    DeclarationIsStored(m, mib, i);
    if d.TypeDeclaration? ==> d.typeSyntax.Some? {
      EventsPart(m.fakeidx, m.ds, i, events[|events| - 1]);
    }
  }
}
