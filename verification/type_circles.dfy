/** Circular types: exactly what keeps the chase of a type from ending. */
module TypeCircles {
  import opened Words
  import opened Pigeonhole
  import opened Registration
  import opened RegistrationOrder
  import opened TwoPasses
  import opened SymbolTables
  import opened BaseTypes

  /** Each key is the type of the one before, where the chase goes on. */
  predicate ChasedAlong(table: Table, path: seq<Key>) {
    forall i :: 0 < i < |path| ==> ChasesTo(table, path[i - 1], path[i])
  }

  predicate ChasesTo(table: Table, k: Key, l: Key) {
    GoesOn(table, k) && l == At(table, k).parent
  }

  predicate TypeCircle(table: Table, path: seq<Key>) {
    ChasedAlong(table, path) && |path| > 1 && path[0] == path[|path| - 1]
  }

  lemma {:induction false} ChaseIsAlong(table: Table, k: Key, n: nat)
    ensures ChasedAlong(table, Chase(table, k, n))
    ensures Has(table, k) ==> forall i :: 0 <= i < |Chase(table, k, n)| ==> Chase(table, k, n)[i] in Keys(table)
    decreases n
  {
    if n > 0 && GoesOn(table, k) {
      ChaseIsAlong(table, At(table, k).parent, n - 1);
    }
  }

  lemma {:induction false} LongerIsTheSame(table: Table, k: Key, n: nat, more: nat)
    requires |Chase(table, k, n)| <= n <= more
    ensures Chase(table, k, more) == Chase(table, k, n)
    decreases more
  {
    if n < more {
      LongerIsTheSame(table, k, n, more - 1);
      ShortChaseIsWhole(table, k, more - 1);
    }
  }

  lemma {:induction false} AlongIsShorter(table: Table, path: seq<Key>, i: nat, n: nat)
    requires ChasedAlong(table, path) && i < |path| && |Chase(table, path[0], n)| <= n
    ensures i <= n && |Chase(table, path[i], n - i)| == |Chase(table, path[0], n)| - i
  {
    if i > 0 {
      AlongIsShorter(table, path, i - 1, n);
      assert ChasesTo(table, path[i - 1], path[i]);
    }
  }

  lemma EndingChaseHasNoRepeats(table: Table, path: seq<Key>, n: nat)
    requires ChasedAlong(table, path) && path != [] && |Chase(table, path[0], n)| <= n
    ensures NoRepeats(path)
  {
    forall i, j | 0 <= i < j < |path| ensures path[i] != path[j] {
      AlongIsShorter(table, path, i, n);
      AlongIsShorter(table, path, j, n);
      if path[i] == path[j] {
        LongerIsTheSame(table, path[j], n - j, n - i);
      }
    }
  }

  /** The chase from `k` ends exactly when no chain of types from `k` comes back to a symbol, whatever
      circles lie elsewhere; otherwise it goes on for ever. */
  lemma ChaseEndsExactly(table: Table, k: Key)
    requires Has(table, k)
    ensures Finishes(table, k) <==>
      forall path :: ChasedAlong(table, path) && path != [] && path[0] == k ==> NoRepeats(path)
    ensures Finishes(table, k) <==> exists n: nat :: |Chase(table, k, n)| <= n
    ensures !Finishes(table, k) ==> forall n: nat :: |Chase(table, k, n)| == n + 1
  {
    var size := |Keys(table)|;
    if Finishes(table, k) {
      assert |Chase(table, k, size)| <= size;
      forall path | ChasedAlong(table, path) && path != [] && path[0] == k ensures NoRepeats(path) {
        EndingChaseHasNoRepeats(table, path, size);
      }
    } else {
      var path := Chase(table, k, size);
      ChaseIsAlong(table, k, size);
      LongSequenceRepeats(path, Keys(table));
      if n: nat :| |Chase(table, k, n)| <= n {
        EndingChaseHasNoRepeats(table, path, n);
      }
    }
  }

  // ----- measures

  /** A rank of modules, then a place in the module. */
  datatype Measure = Measure(rank: string -> nat, place: Key -> nat)

  ghost predicate Below(m: Measure, k: Key, l: Key) {
    m.rank(k.1) < m.rank(l.1) || (m.rank(k.1) == m.rank(l.1) && m.place(k) < m.place(l))
  }

  /** Each type lies below the symbol it is the type of. */
  ghost predicate Descends(table: Table, m: Measure) {
    forall k: Key :: GoesOn(table, k) ==> Below(m, At(table, k).parent, k)
  }

  lemma {:induction false} EachIsBelow(table: Table, m: Measure, path: seq<Key>, i: nat, j: nat)
    requires Descends(table, m) && ChasedAlong(table, path) && i < j < |path|
    ensures Below(m, path[j], path[i])
  {
    assert ChasesTo(table, path[j - 1], path[j]);
    if i < j - 1 {
      EachIsBelow(table, m, path, i, j - 1);
    }
  }

  /** With a measure every chase ends. */
  lemma DescendingFinishes(table: Table, m: Measure, k: Key)
    requires Descends(table, m)
    ensures Finishes(table, k)
  {
    if Has(table, k) {
      ChaseEndsExactly(table, k);
      forall path | ChasedAlong(table, path) && path != [] && path[0] == k ensures NoRepeats(path) {
        forall i, j | 0 <= i < j < |path| ensures path[i] != path[j] {
          EachIsBelow(table, m, path, i, j);
        }
      }
    }
  }

  /** A measure for the whole table exists exactly when no chain of types comes back to where it was. */
  lemma DescendsExactly(table: Table)
    ensures (exists m :: Descends(table, m)) <==> !exists path :: TypeCircle(table, path)
  {
    if m, path :| Descends(table, m) && TypeCircle(table, path) {
      EachIsBelow(table, m, path, 0, |path| - 1);
    }
    if !exists path :: TypeCircle(table, path) {
      var m := Measure(mib => 0, (k: Key) => Length(table, k));
      forall k: Key | GoesOn(table, k) ensures Below(m, At(table, k).parent, k) {
        ChaseEndsExactly(table, k);
        if path :| ChasedAlong(table, path) && path != [] && path[0] == k && !NoRepeats(path) {
          var circle := Slice(table, path);
        }
        ChaseNext(table, k);
      }
      assert Descends(table, m);
    }
  }

  lemma Slice(table: Table, path: seq<Key>) returns (circle: seq<Key>)
    requires ChasedAlong(table, path) && !NoRepeats(path)
    ensures TypeCircle(table, circle)
  {
    var i, j :| 0 <= i < j < |path| && path[i] == path[j];
    circle := path[i..j + 1];
    forall x | 0 < x < |circle| ensures ChasesTo(table, circle[x - 1], circle[x]) {
      assert ChasesTo(table, path[i + x - 1], path[i + x]);
    }
  }

  // ----- a row that is also a type

  /** A table of rows `a`, and two types that refine each other, `a` the name of one. */
  function RowAndType(t: string, a: string, b: string): seq<Declaration> {
    [TypeDeclaration(t, Some(ConceptualTable(a))), TypeDeclaration(b, Some(Simple(a))),
     TypeDeclaration(a, Some(Simple(b)))]
  }

  lemma RunFour(st: Symtab, events: seq<Event>, keys: seq<seq<string>>)
    requires |events| == |keys| == 4
    ensures ApplyAll(st, events, keys) ==
      match Apply(st, events[0], keys[0])
      case Ok(s1) =>
        (match Apply(s1, events[1], keys[1])
         case Ok(s2) =>
           (match Apply(s2, events[2], keys[2])
            case Ok(s3) => Apply(s3, events[3], keys[3])
            case error => error)
         case error => error)
      case error => error
  {
    assert events[..3][..2] == events[..2] && events[..2][..1] == events[..1] && events[..1][..0] == [];
    assert keys[..3][..2] == keys[..2] && keys[..2][..1] == keys[..1] && keys[..1][..0] == [];
    assert ApplyAll(st, [], []) == Ok(st);
    assert ApplyAll(st, events[..1], keys[..1]) == Apply(st, events[0], keys[0]);
    assert ApplyAll(st, events[..2], keys[..2]) ==
      match ApplyAll(st, events[..1], keys[..1]) case Ok(s) => Apply(s, events[1], keys[1]) case error => error;
    assert ApplyAll(st, events[..3], keys[..3]) ==
      match ApplyAll(st, events[..2], keys[..2]) case Ok(s) => Apply(s, events[2], keys[2]) case error => error;
  }

  lemma TableEvents(fakeidx: nat, name: string, row: string)
    ensures EventsOf({}, fakeidx, TypeDeclaration(name, Some(ConceptualTable(row)))) ==
      [Row(row), Symbol(name, ["MibTable"])]
  {
    assert Parents({}, ConceptualTable(row), None) == ["MibTable"];
  }

  lemma RowAndTypeEvents(fakeidx: nat, t: string, a: string, b: string)
    ensures AllEvents(fakeidx, RowAndType(t, a, b)) == [Row(a), Symbol(t, ["MibTable"]), Symbol(b, [a]), Symbol(a, [b])]
  {
    var ds := RowAndType(t, a, b);
    assert [] + [ds[0]] == [ds[0]] && [ds[0]] + [ds[1]] == [ds[0], ds[1]] && [ds[0], ds[1]] + [ds[2]] == ds;
    EventsNext(fakeidx, [], ds[0]);
    EventsNext(fakeidx, [ds[0]], ds[1]);
    EventsNext(fakeidx, [ds[0], ds[1]], ds[2]);
    TableEvents(CounterAfter(fakeidx, []), t, a);
    TypeEvents(RowsAfter([ds[0]]), CounterAfter(fakeidx, [ds[0]]), b, a);
    TypeEvents(RowsAfter([ds[0], ds[1]]), CounterAfter(fakeidx, [ds[0], ds[1]]), a, b);
  }

  /** The generator accepts a module in which a row is declared as a type too and two types refine each
      other: a row is known before it is declared. Its types have no measure. */
  lemma RowsMakeCircle(mibs: map<string, Mib>, mib: string, t: string, a: string, b: string, subs: Key -> EnumList?)
    requires mib in mibs && mibs[mib].ds == RowAndType(t, a, b) && |mibs[mib].keys| == 4
    requires t != a && a != b && t != b && {t, a, b} !! mibs[mib].importMap.Keys + BASE_TYPES + TABLE_CLASSES + {""}
    ensures Accepted(mibs[mib])
    ensures TypeCircle(TypeTable(mibs, subs), [(a, mib), (b, mib), (a, mib)])
    ensures !exists m :: Descends(TypeTable(mibs, subs), m)
  {
    RowAndTypeAccepted(mibs[mib], t, a, b);
    RowAndTypeInfos(mibs[mib], mib, t, a, b);
    var table, path := TypeTable(mibs, subs), [(a, mib), (b, mib), (a, mib)];
    assert ChasesTo(table, path[0], path[1]) && ChasesTo(table, path[1], path[2]);
    DescendsExactly(table);
  }

  lemma RowAndTypeAccepted(m: Mib, t: string, a: string, b: string)
    requires m.ds == RowAndType(t, a, b) && |m.keys| == 4 && t != a && a != b && t != b
    ensures Accepted(m)
  {
    RowAndTypeEvents(m.fakeidx, t, a, b);
    RowAndTypeRun(m.importMap.Keys, t, a, b, m.keys);
  }

  lemma RowAndTypeRun(imports: set<string>, t: string, a: string, b: string, keys: seq<seq<string>>)
    requires |keys| == 4 && t != a && a != b && t != b
    ensures GenCode(imports, [Row(a), Symbol(t, ["MibTable"]), Symbol(b, [a]), Symbol(a, [b])], keys).Ok?
  {
    var s1 := Empty(imports).(rows := {a});
    assert Apply(Empty(imports), Row(a), keys[0]) == Ok(s1) by {
      assert {} + {a} == {a};
    }
    RegisteredAtOnce(s1, t, ["MibTable"], keys[1]);
    var s2 := Register(s1, t, ["MibTable"]);
    RegisteredAtOnce(s2, b, [a], keys[2]);
    var s3 := Register(s2, b, [a]);
    RegisteredAtOnce(s3, a, [b], keys[3]);
    RunFour(Empty(imports), [Row(a), Symbol(t, ["MibTable"]), Symbol(b, [a]), Symbol(a, [b])], keys);
  }

  lemma RowAndTypeInfos(m: Mib, mib: string, t: string, a: string, b: string)
    requires m.ds == RowAndType(t, a, b) && t != a && a != b && t != b
    requires {t, a, b} !! m.importMap.Keys + BASE_TYPES
    ensures var infos := Infos(m, mib, m.ds);
      a in infos && b in infos && infos[a].syntax == (b, mib) && infos[b].syntax == (a, mib)
  {
    var ds := m.ds;
    assert ds[..2][..1] == ds[..1] && b in Infos(m, mib, ds[..2]);
  }
}
