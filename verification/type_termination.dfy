/** Why the chase of a type ends: the order the symbol tables were built in. */
module TypeTermination {
  import opened Registration
  import opened RegistrationOrder
  import opened BaseTypes
  import opened SymbolTables
  import opened TypeCircles

  /** Modules the symbol table generator accepted, each with the table classes among its imports, as the
      constant imports put them there. */
  predicate AllAccepted(mibs: map<string, Mib>) {
    "" !in mibs && forall mib :: mib in mibs ==> Accepted(mibs[mib]) && TABLE_CLASSES <= mibs[mib].importMap.Keys
  }

  /** Modules do not import types in a circle. */
  ghost predicate ImportsDescend(mibs: map<string, Mib>, rank: string -> nat) {
    forall mib, s | mib in mibs && s in Infos(mibs[mib], mib, mibs[mib].ds) ::
      var (p, q) := Infos(mibs[mib], mib, mibs[mib].ds)[s].syntax;
      p in mibs[mib].importMap && q in mibs ==> rank(q) < rank(mib)
  }

  /** No row name is also declared as a type other than a SEQUENCE. */
  ghost predicate RowsAreNotTypes(mibs: map<string, Mib>)
    requires AllAccepted(mibs)
  {
    forall mib | mib in mibs :: SymtabOf(mibs[mib]).rows !! SymtabOf(mibs[mib]).out.Keys
  }

  function PlaceIn(order: seq<string>, s: string): (i: nat)
    ensures i <= |order|
    ensures s in order ==> i < |order| && order[i] == s
    ensures forall j :: 0 <= j < i ==> order[j] != s
  {
    if order == [] then 0 else if order[0] == s then 0 else 1 + PlaceIn(order[1..], s)
  }

  function MeasureOf(mibs: map<string, Mib>, rank: string -> nat): Measure {
    Measure(rank, (k: Key) =>
      if k.1 in mibs && Accepted(mibs[k.1]) then PlaceIn(SymtabOf(mibs[k.1]).order, k.0) else 0)
  }

  /** Accepted modules whose type imports do not go round in a circle have no circular type chain: the
      chase of any symbol goes down in (module rank, place in the order of the module). */
  lemma AcceptedTypesDescend(mibs: map<string, Mib>, subs: Key -> EnumList?, rank: string -> nat)
    requires AllAccepted(mibs) && ImportsDescend(mibs, rank) && RowsAreNotTypes(mibs)
    ensures Descends(TypeTable(mibs, subs), MeasureOf(mibs, rank))
  {
    var table := TypeTable(mibs, subs);
    forall k: Key | GoesOn(table, k) ensures Below(MeasureOf(mibs, rank), At(table, k).parent, k) {
      ParentIsBelow(mibs, subs, rank, k);
    }
  }

  lemma ParentIsBelow(mibs: map<string, Mib>, subs: Key -> EnumList?, rank: string -> nat, k: Key)
    requires AllAccepted(mibs) && ImportsDescend(mibs, rank) && RowsAreNotTypes(mibs)
    requires GoesOn(TypeTable(mibs, subs), k)
    ensures Below(MeasureOf(mibs, rank), At(TypeTable(mibs, subs), k).parent, k)
  {
    var m, parent := mibs[k.1], At(TypeTable(mibs, subs), k).parent;
    AcceptedSymbols(m, k.1);
    assert TypeFits(m, k.1, SymtabOf(m).out[k.0], parent);
    assert parent == Infos(m, k.1, m.ds)[k.0].syntax;
    if parent.0 !in m.importMap {
      OwnParentIsBefore(SymtabOf(m), k.0, parent.0);
    }
  }

  lemma OwnParentIsBefore(st: Symtab, s: string, p: string)
    requires WellOrdered(st) && st.rows !! st.out.Keys && TABLE_CLASSES <= st.imports
    requires s in st.out && p in st.out[s] && p in st.out && p !in st.imports && p !in BASE_TYPES
    ensures PlaceIn(st.order, p) < PlaceIn(st.order, s)
  {
    OrderedParents(st, PlaceIn(st.order, s), p);
    var j :| 0 <= j < PlaceIn(st.order, s) && st.order[j] == p;
    assert PlaceIn(st.order, p) <= j;
  }
}
