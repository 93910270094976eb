/** Circular object identifiers: accepted by the symbol table generator, never expanded. */
module OidCircles {
  import opened Words
  import opened Pigeonhole
  import opened Registration
  import opened RegistrationOrder
  import opened TwoPasses
  import opened Acceptance
  import opened SymbolTables
  import Oids = NumericOids

  // ----- modules of symbols without parents

  predicate IsPlain(e: Event) {
    e.OidParent? || (e.Symbol? && e.parents == [])
  }

  /** What the table holds after symbols without parents. */
  predicate Holds(st: Symtab, imports: set<string>, events: seq<Event>) {
    && st.imports == imports && st.postponed == map[]
    && st.out.Keys == (set s | s in SymbolNames(events)) && st.oidParents == OidParentsOf(events)
  }

  lemma {:induction false} PlainRun(imports: set<string>, events: seq<Event>, keys: seq<seq<string>>)
    requires |keys| == |events| && forall i :: 0 <= i < |events| ==> IsPlain(events[i])
    ensures ApplyAll(Empty(imports), events, keys).Ok? <==> NoRepeats(SymbolNames(events))
    ensures ApplyAll(Empty(imports), events, keys).Ok? ==>
      Holds(ApplyAll(Empty(imports), events, keys).value, imports, events)
  {
    if events != [] {
      var n := |events| - 1;
      PlainRun(imports, events[..n], keys[..n]);
      var before, names := ApplyAll(Empty(imports), events[..n], keys[..n]), SymbolNames(events[..n]);
      assert events == events[..n] + [events[n]];
      if events[n].Symbol? {
        OneMoreName(names, events[n].name);
        if before.Ok? && events[n].name !in names {
          RegisteredAtOnce(before.value, events[n].name, [], keys[n]);
        }
      } else {
        assert SymbolNames(events) == names + [] == names;
      }
    }
  }

  // ----- modules of clauses

  predicate AllClauses(ds: seq<Declaration>) {
    forall i :: 0 <= i < |ds| ==> ds[i].Clause?
  }

  function ClauseNames(ds: seq<Declaration>): seq<string>
    requires AllClauses(ds)
  {
    seq(|ds|, i requires 0 <= i < |ds| => ds[i].name)
  }

  /** Every name in an identifier is declared or imported. */
  ghost predicate ParentsNamed(imports: set<string>, ds: seq<Declaration>) {
    forall i, name :: 0 <= i < |ds| && ds[i].Clause? && Named(name) in ds[i].oid ==>
      name in imports || name in set d | d in ds :: d.name
  }

  lemma {:induction false} OidNamesOf(oid: seq<OidItem>)
    ensures forall name :: name in OidNames(oid) <==> Named(name) in oid
  {
    if oid != [] {
      OidNamesOf(oid[..|oid| - 1]);
      assert oid == oid[..|oid| - 1] + [oid[|oid| - 1]];
    }
  }

  lemma OneClauseEvents(rows: set<string>, fakeidx: nat, d: Declaration)
    requires d.Clause?
    ensures var events := EventsOf(rows, fakeidx, d);
      && (forall e :: e in events ==> IsPlain(e)) && SymbolNames(events) == [d.name]
      && forall name :: OidParent(name) in events <==> Named(name) in d.oid
  {
    var names := OidNames(d.oid);
    var oids, last := OidEvents(names), Symbol(d.name, []);
    SymbolNamesAppend(oids, [last]);
    SymbolNamesOfOids(names);
    OneSymbol(d.name, []);
    OidNamesOf(d.oid);
    forall name ensures OidParent(name) in oids <==> Named(name) in d.oid {
      if name in names {
        var i :| 0 <= i < |names| && names[i] == name;
        assert oids[i] == OidParent(name);
      }
    }
  }

  ghost predicate Mentioned(ds: seq<Declaration>, name: string) {
    exists d :: d in ds && d.Clause? && Named(name) in d.oid
  }

  lemma MentionedNext(ds: seq<Declaration>, name: string)
    requires ds != [] && ds[|ds| - 1].Clause?
    ensures Mentioned(ds, name) <==> Mentioned(ds[..|ds| - 1], name) || Named(name) in ds[|ds| - 1].oid
  {
    assert ds == ds[..|ds| - 1] + [ds[|ds| - 1]];
  }

  lemma LastClauseEvents(fakeidx: nat, ds: seq<Declaration>) returns (own: seq<Event>)
    requires ds != [] && ds[|ds| - 1].Clause?
    ensures var d := ds[|ds| - 1];
      && AllEvents(fakeidx, ds) == AllEvents(fakeidx, ds[..|ds| - 1]) + own
      && (forall e :: e in own ==> IsPlain(e)) && SymbolNames(own) == [d.name]
      && forall name :: OidParent(name) in own <==> Named(name) in d.oid
  {
    var n := |ds| - 1;
    own := EventsOf(RowsAfter(ds[..n]), CounterAfter(fakeidx, ds[..n]), ds[n]);
    OneClauseEvents(RowsAfter(ds[..n]), CounterAfter(fakeidx, ds[..n]), ds[n]);
  }

  lemma {:induction false} ClausesArePlain(fakeidx: nat, ds: seq<Declaration>)
    requires AllClauses(ds)
    ensures forall e :: e in AllEvents(fakeidx, ds) ==> IsPlain(e)
  {
    if ds != [] {
      ClausesArePlain(fakeidx, ds[..|ds| - 1]);
      var own := LastClauseEvents(fakeidx, ds);
    }
  }

  lemma LastClauseName(fakeidx: nat, ds: seq<Declaration>)
    requires ds != [] && ds[|ds| - 1].Clause?
    ensures SymbolNames(AllEvents(fakeidx, ds)) == SymbolNames(AllEvents(fakeidx, ds[..|ds| - 1])) + [ds[|ds| - 1].name]
  {
    var own := LastClauseEvents(fakeidx, ds);
    SymbolNamesAppend(AllEvents(fakeidx, ds[..|ds| - 1]), own);
  }

  lemma ClauseNamesNext(ds: seq<Declaration>)
    requires AllClauses(ds) && ds != []
    ensures ClauseNames(ds) == ClauseNames(ds[..|ds| - 1]) + [ds[|ds| - 1].name]
  {
  }

  lemma {:induction false} ClauseSymbolNames(fakeidx: nat, ds: seq<Declaration>)
    requires AllClauses(ds)
    ensures SymbolNames(AllEvents(fakeidx, ds)) == ClauseNames(ds)
  {
    if ds != [] {
      ClauseSymbolNames(fakeidx, ds[..|ds| - 1]);
      LastClauseName(fakeidx, ds);
      ClauseNamesNext(ds);
    }
  }

  lemma {:induction false} ClauseOidParents(fakeidx: nat, ds: seq<Declaration>, name: string)
    requires AllClauses(ds)
    ensures OidParent(name) in AllEvents(fakeidx, ds) <==> Mentioned(ds, name)
  {
    if ds != [] {
      ClauseOidParents(fakeidx, ds[..|ds| - 1], name);
      var own := LastClauseEvents(fakeidx, ds);
      MentionedNext(ds, name);
    }
  }

  lemma ParentsKnownWhenNamed(m: Mib, st: Symtab)
    requires AllClauses(m.ds) && Holds(st, m.importMap.Keys, AllEvents(m.fakeidx, m.ds))
    ensures OidParentsKnown(st) <==> ParentsNamed(m.importMap.Keys, m.ds)
  {
    var names := ClauseNames(m.ds);
    ClauseSymbolNames(m.fakeidx, m.ds);
    assert forall i :: 0 <= i < |m.ds| ==> names[i] == m.ds[i].name;
    forall name ensures name in st.out <==> name in set d | d in m.ds :: d.name {
      assert name in st.out <==> name in names;
    }
    forall name ensures name in st.oidParents <==> Mentioned(m.ds, name) {
      ClauseOidParents(m.fakeidx, m.ds, name);
    }
    if OidParentsKnown(st) {
      forall i, name | 0 <= i < |m.ds| && m.ds[i].Clause? && Named(name) in m.ds[i].oid
        ensures name in m.importMap.Keys || name in set d | d in m.ds :: d.name
      {
        assert Mentioned(m.ds, name);
      }
    }
    if ParentsNamed(m.importMap.Keys, m.ds) {
      forall name | name in st.oidParents ensures name in st.out || name in st.imports {
        var d :| d in m.ds && d.Clause? && Named(name) in d.oid;
        var i :| 0 <= i < |m.ds| && m.ds[i] == d;
      }
    }
  }

  /** A module of clauses is accepted exactly when no symbol is declared twice and every parent has a
      declaration or an import. Nothing else is asked of the parents. */
  lemma ClausesAccepted(m: Mib)
    requires AllClauses(m.ds) && |m.keys| == |AllEvents(m.fakeidx, m.ds)|
    ensures Accepted(m) <==> NoRepeats(ClauseNames(m.ds)) && ParentsNamed(m.importMap.Keys, m.ds)
  {
    var imports, events := m.importMap.Keys, AllEvents(m.fakeidx, m.ds);
    ClausesArePlain(m.fakeidx, m.ds);
    ClauseSymbolNames(m.fakeidx, m.ds);
    PlainRun(imports, events, m.keys);
    if ApplyAll(Empty(imports), events, m.keys).Ok? {
      ParentsKnownWhenNamed(m, ApplyAll(Empty(imports), events, m.keys).value);
    }
  }

  lemma {:induction false} ClauseInfos(m: Mib, mib: string, ds: seq<Declaration>, i: nat)
    requires AllClauses(ds) && NoRepeats(ClauseNames(ds)) && i < |ds|
    ensures ds[i].name in Infos(m, mib, ds) && Infos(m, mib, ds)[ds[i].name].oid == Some(Parts(m, mib, ds[i].oid))
    decreases |ds|
  {
    var n := |ds| - 1;
    var names := ClauseNames(ds);
    assert forall j :: 0 <= j < |ds| ==> names[j] == ds[j].name;
    if i < n {
      assert forall j :: 0 <= j < n ==> ClauseNames(ds[..n])[j] == names[j];
      ClauseInfos(m, mib, ds[..n], i);
      assert names[i] != names[n];
    }
  }

  // ----- circles

  /** Each name is defined below the next one, the last below the first. */
  function CircleOf(names: seq<string>): seq<Declaration> {
    seq(|names|, i requires 0 <= i < |names| => Clause(names[i], [Named(names[Next(|names|, i)]), Numbered(1)]))
  }

  function Next(n: nat, i: nat): (j: nat)
    requires i < n
    ensures j < n
  {
    if i + 1 < n then i + 1 else 0
  }

  /** `mib` is one of the modules, and its declarations are a circle. */
  predicate HasCircle(mibs: map<string, Mib>, mib: string, names: seq<string>) {
    && mib in mibs && mibs[mib].ds == CircleOf(names) &&
      |mibs[mib].keys| == |AllEvents(mibs[mib].fakeidx, mibs[mib].ds)|
    && NoRepeats(names) && forall j :: 0 <= j < |names| ==> names[j] != "iso" && names[j] !in mibs[mib].importMap
  }

  lemma CircleIsAccepted(mibs: map<string, Mib>, mib: string, names: seq<string>)
    requires HasCircle(mibs, mib, names)
    ensures Accepted(mibs[mib])
  {
    var m := mibs[mib];
    assert ClauseNames(m.ds) == names;
    CircleIsNamed(m.importMap.Keys, names);
    ClausesAccepted(m);
  }

  lemma CircleOid(mibs: map<string, Mib>, mib: string, names: seq<string>, i: nat)
    requires HasCircle(mibs, mib, names) && i < |names|
    ensures Oids.HasOid(OidTable(mibs), (names[i], mib))
    ensures Oids.OidAt(OidTable(mibs), (names[i], mib)) == [Oids.Ref((names[Next(|names|, i)], mib)), Oids.Number(1)]
  {
    var m := mibs[mib];
    assert ClauseNames(m.ds) == names;
    ClauseInfos(m, mib, m.ds, i);
    assert Parts(m, mib, m.ds[i].oid) == [Oids.Ref((names[Next(|names|, i)], mib)), Oids.Number(1)];
  }

  lemma {:induction false} CircleIsTooDeep(mibs: map<string, Mib>, mib: string, names: seq<string>, i: nat, depth: nat)
    requires HasCircle(mibs, mib, names) && i < |names|
    ensures Oids.HasOid(OidTable(mibs), (names[i], mib))
    ensures Oids.Expand(OidTable(mibs), Oids.OidAt(OidTable(mibs), (names[i], mib)), depth) == None
    decreases depth
  {
    var table, next := OidTable(mibs), Oids.Ref((names[Next(|names|, i)], mib));
    CircleOid(mibs, mib, names, i);
    CircleOid(mibs, mib, names, Next(|names|, i));
    if depth > 0 {
      CircleIsTooDeep(mibs, mib, names, Next(|names|, i), depth - 1);
    }
    assert [next, Oids.Number(1)][..1] == [next];
    Oids.SinglePart(table, next, depth);
    Oids.PrefixDecides(table, [next, Oids.Number(1)], depth, 1);
  }

  /** A circle of any length is accepted by the generator, and the expansion of its identifiers never ends. */
  lemma AcceptedCircle(mibs: map<string, Mib>, mib: string, names: seq<string>, i: nat)
    requires HasCircle(mibs, mib, names) && i < |names|
    ensures Accepted(mibs[mib])
    ensures Oids.HasOid(OidTable(mibs), (names[i], mib)) && !Oids.Finishes(OidTable(mibs), (names[i], mib))
  {
    CircleIsAccepted(mibs, mib, names);
    CircleOid(mibs, mib, names, i);
    forall depth: nat ensures Oids.Expand(OidTable(mibs), Oids.OidAt(OidTable(mibs), (names[i], mib)), depth) == None {
      CircleIsTooDeep(mibs, mib, names, i, depth);
    }
  }

  lemma CircleIsNamed(imports: set<string>, names: seq<string>)
    ensures ParentsNamed(imports, CircleOf(names))
  {
    var ds := CircleOf(names);
    forall i, name | 0 <= i < |ds| && Named(name) in ds[i].oid ensures name in set d | d in ds :: d.name {
      assert ds[Next(|names|, i)] in ds;
    }
  }
}
