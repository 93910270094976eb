/** A default value that changes the text of a type declared after it. */
module DefaultValues {
  import opened Words
  import opened Registration
  import opened RegistrationOrder
  import opened TwoPasses
  import opened SymbolTables
  import opened BaseTypes

  /** An enumeration, an object of a type that refines it, and the type. */
  function ObjectBeforeType(t1: string, o: string, t2: string): seq<Declaration> {
    [TypeDeclaration(t1, Some(Simple("Integer32"))), ObjectType(o, [Numbered(1)], Simple(t2), None, 0),
     TypeDeclaration(t2, Some(Simple(t1)))]
  }

  lemma ObjectEvents(rows: set<string>, fakeidx: nat, name: string, parent: string)
    ensures EventsOf(rows, fakeidx, ObjectType(name, [Numbered(1)], Simple(parent), None, 0)) ==
      [Symbol(name, [parent])]
  {
    assert [Numbered(1)][..0] == [];
    assert OidNames([Numbered(1)]) == [];
    assert Parents(rows, Simple(parent), None) == [parent];
  }

  lemma ObjectBeforeTypeEvents(fakeidx: nat, t1: string, o: string, t2: string)
    ensures AllEvents(fakeidx, ObjectBeforeType(t1, o, t2)) ==
      [Symbol(t1, ["Integer32"]), Symbol(o, [t2]), Symbol(t2, [t1])]
  {
    var ds := ObjectBeforeType(t1, o, t2);
    assert [] + [ds[0]] == [ds[0]] && [ds[0]] + [ds[1]] == [ds[0], ds[1]] && [ds[0], ds[1]] + [ds[2]] == ds;
    EventsNext(fakeidx, [], ds[0]);
    EventsNext(fakeidx, [ds[0]], ds[1]);
    EventsNext(fakeidx, [ds[0], ds[1]], ds[2]);
    TypeEvents(RowsAfter([]), CounterAfter(fakeidx, []), t1, "Integer32");
    ObjectEvents(RowsAfter([ds[0]]), CounterAfter(fakeidx, [ds[0]]), o, t2);
    TypeEvents(RowsAfter([ds[0], ds[1]]), CounterAfter(fakeidx, [ds[0], ds[1]]), t2, t1);
  }

  lemma ObjectBeforeTypeRun(imports: set<string>, t1: string, o: string, t2: string)
    requires t1 != o && o != t2 && t1 != t2 && t2 !in External(Empty(imports))
    ensures GenCode(imports, [Symbol(t1, ["Integer32"]), Symbol(o, [t2]), Symbol(t2, [t1])], [[], [], [o]]).Ok?
  {
    var start := Empty(imports);
    RegisteredAtOnce(start, t1, ["Integer32"], []);
    var s1 := Register(start, t1, ["Integer32"]);
    var s2 := s1.(postponed := map[o := [t2]]);
    assert Apply(s1, Symbol(o, [t2]), []) == Ok(s2) by {
      assert !Known(s1, [t2][0]);
    }
    var s3 := Register(s2, t2, [t1]);
    assert Apply(s2, Symbol(t2, [t1]), [o]) == Ok(PassOver(s3, [o])) by {
      assert Known(s2, [t1][0]);
    }
    assert PassOver(s3, [o]) == Register(s3, o, [t2]) by {
      assert [o][..0] == [] && PassOver(s3, []) == s3 && s3.postponed == map[o := [t2]] && Known(s3, t2);
    }
    assert (map[o := [t2]] - {o}) == map[];
    RunThree(start, [Symbol(t1, ["Integer32"]), Symbol(o, [t2]), Symbol(t2, [t1])], [[], [], [o]]);
  }

  lemma RunThree(st: Symtab, events: seq<Event>, keys: seq<seq<string>>)
    requires |events| == |keys| == 3
    ensures ApplyAll(st, events, keys) ==
      match Apply(st, events[0], keys[0])
      case Ok(s1) =>
        (match Apply(s1, events[1], keys[1])
         case Ok(s2) => Apply(s2, events[2], keys[2])
         case error => error)
      case error => error
  {
    assert events[..2][..1] == events[..1] && events[..1][..0] == [];
    assert keys[..2][..1] == keys[..1] && keys[..1][..0] == [];
    assert ApplyAll(st, [], []) == Ok(st);
    assert ApplyAll(st, events[..1], keys[..1]) == Apply(st, events[0], keys[0]);
    assert ApplyAll(st, events[..2], keys[..2]) ==
      match ApplyAll(st, events[..1], keys[..1]) case Ok(s) => Apply(s, events[1], keys[1]) case error => error;
  }

  lemma ObjectBeforeTypeInfos(m: Mib, mib: string, t1: string, o: string, t2: string)
    requires m.ds == ObjectBeforeType(t1, o, t2) && t1 != o && o != t2 && t1 != t2
    requires {t1, t2} !! m.importMap.Keys + BASE_TYPES
    ensures var infos := Infos(m, mib, m.ds);
      && infos.Keys == {t1, o, t2}
      && infos[t1].syntax == ("Integer32", "") && infos[o].syntax == (t2, mib) && infos[t2].syntax == (t1, mib)
  {
    var ds := m.ds;
    assert ds[..2][..1] == ds[..1] && ds[..1][..0] == [];
    assert Infos(m, mib, []) == map[];
    assert Infos(m, mib, ds[..1]) == map[t1 := Info(None, ("Integer32", ""))];
    assert Infos(m, mib, ds[..2]).Keys == {t1, o};
  }

  /** The generator accepts the module. When both types are enumerations, the default value of the object
      is worked out before the type is written, and extends its list. */
  lemma DefaultChangesText(mibs: map<string, Mib>, mib: string, t1: string, o: string, t2: string,
                           subs: Key -> EnumList?)
    requires mib in mibs && mibs[mib].ds == ObjectBeforeType(t1, o, t2) && mibs[mib].keys == [[], [], [o]]
    requires t1 != o && o != t2 && t1 != t2
    requires {"", t1, t2} !! mibs[mib].importMap.Keys + BASE_TYPES + TABLE_CLASSES && t1 != "" && t2 != ""
    requires subs((t1, mib)) != null && subs((t2, mib)) != null
    ensures Accepted(mibs[mib])
    ensures var (table, tasks) := (TypeTable(mibs, subs), [DefVal((o, mib)), Write((t2, mib))]);
      && DefaultsFinish(table, tasks) && ListOf(table, (t2, mib)) != null
      && TouchedBefore(table, tasks, 1, (t2, mib))
  {
    ObjectBeforeTypeEvents(mibs[mib].fakeidx, t1, o, t2);
    ObjectBeforeTypeRun(mibs[mib].importMap.Keys, t1, o, t2);
    ObjectBeforeTypeInfos(mibs[mib], mib, t1, o, t2);
    var table, tasks := TypeTable(mibs, subs), [DefVal((o, mib)), Write((t2, mib))];
    TouchesSecond(table, (o, mib), (t2, mib), (t1, mib));
    assert tasks[0].DefVal? && Touches(table, tasks[0].key, (t2, mib));
  }

  lemma TouchesSecond(table: Table, k: Key, l: Key, last: Key)
    requires Has(table, k) && Has(table, l) && Has(table, last) && k != l && l != last && k != last
    requires At(table, k).parent == l && At(table, l).parent == last && At(table, last).parent.0 == "Integer32"
    requires l.0 !in BASE_TYPES + {""} && last.0 !in BASE_TYPES + {""}
    requires At(table, l).sub != null && At(table, last).sub != null
    ensures Finishes(table, k) && Touches(table, k, l)
  {
    assert GoesOn(table, k) && GoesOn(table, l) && !GoesOn(table, last);
    assert {k, l, last} <= Keys(table);
    Subset({k, l, last}, Keys(table));
    var n := |Keys(table)|;
    assert Chase(table, last, n - 2) == [last];
    assert Chase(table, l, n - 1) == [l] + [last];
    assert Chase(table, k, n) == [k] + ([l] + [last]);
    ChaseNext(table, k);
    ChaseNext(table, l);
    assert BaseOf(table, last) == Found(At(table, last).parent);
    assert BaseOf(table, k) == BaseOf(table, l) == BaseOf(table, last);
    assert HasEnumeration(table, last) && OnChain(table, l, l) && OnChain(table, k, l);
  }
}
