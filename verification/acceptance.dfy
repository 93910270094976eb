/** Exactly which modules the symbol table generator accepts. */
module Acceptance {
  import opened Pigeonhole
  import opened Registration
  import opened RegistrationOrder
  import opened TwoPasses

  lemma {:induction false} SymbolNamesAre(events: seq<Event>, name: string)
    ensures name in SymbolNames(events) <==> exists e :: e in events && e.Symbol? && e.name == name
  {
    if events != [] {
      var n := |events| - 1;
      SymbolNamesAre(events[..n], name);
      assert events == events[..n] + [events[n]];
    }
  }

  /** What has been declared is exactly what was named. */
  lemma DeclaredAreNamed(imports: set<string>, events: seq<Event>, keys: seq<seq<string>>)
    requires |keys| == |events| && ApplyAll(Empty(imports), events, keys).Ok?
    ensures var st := ApplyAll(Empty(imports), events, keys).value;
      WellOrdered(st) && st.imports == imports && Declarations(st).Keys == set s | s in SymbolNames(events)
    ensures ApplyAll(Empty(imports), events, keys).value.oidParents == OidParentsOf(events)
  {
    var start := Empty(imports);
    RunKeepsOrder(start, events, keys);
    RunDeclares(start, events, keys);
    var st := ApplyAll(start, events, keys).value;
    assert Declarations(start) == map[];
    forall s ensures s in Declarations(st) <==> s in SymbolNames(events) {
      SymbolNamesAre(events, s);
    }
  }

  /** The declarations run through exactly when none names a symbol again. */
  lemma {:induction false} RunsExactly(imports: set<string>, events: seq<Event>, keys: seq<seq<string>>)
    requires |keys| == |events|
    ensures ApplyAll(Empty(imports), events, keys).Ok? <==> NoRepeats(SymbolNames(events))
  {
    if events != [] {
      var n := |events| - 1;
      RunsExactly(imports, events[..n], keys[..n]);
      var names := SymbolNames(events[..n]);
      if events[n].Symbol? {
        OneMoreName(names, events[n].name);
        if ApplyAll(Empty(imports), events[..n], keys[..n]).Ok? {
          DeclaredAreNamed(imports, events[..n], keys[..n]);
          DeclaredOnes(ApplyAll(Empty(imports), events[..n], keys[..n]).value, events[n].name);
        }
      } else {
        assert names + [] == names;
      }
    }
  }

  lemma DeclaredOnes(st: Symtab, name: string)
    ensures Declared(st, name) <==> name in Declarations(st)
  {
  }

  lemma OneMoreName(names: seq<string>, name: string)
    ensures NoRepeats(names + [name]) <==> NoRepeats(names) && name !in names
  {
    var all := names + [name];
    assert all[|names|] == name && forall i :: 0 <= i < |names| ==> all[i] == names[i];
    if NoRepeats(all) {
      forall i, j | 0 <= i < j < |names| ensures names[i] != names[j] {
        assert all[i] != all[j];
      }
    }
  }

  // ----- the last symbol

  /** After event `j` nothing but rows and identifier parents follows. */
  predicate NoSymbolAfter(events: seq<Event>, j: nat) {
    forall i :: j < i < |events| ==> !events[i].Symbol?
  }

  lemma {:induction false} TailKeepsSymbols(st: Symtab, events: seq<Event>, keys: seq<seq<string>>, j: nat, i: nat)
    requires |keys| == |events| && j < i <= |events| && NoSymbolAfter(events, j)
    ensures var (s, t) := (ApplyAll(st, events[..j + 1], keys[..j + 1]), ApplyAll(st, events[..i], keys[..i]));
      (s.Ok? <==> t.Ok?) && (s.Ok? ==> s.value.out == t.value.out && s.value.postponed == t.value.postponed)
    decreases i
  {
    if i > j + 1 {
      TailKeepsSymbols(st, events, keys, j, i - 1);
      assert events[..i][..i - 1] == events[..i - 1] && keys[..i][..i - 1] == keys[..i - 1];
    }
  }

  /** The table when the symbol of event `j` has been registered, before the pass. */
  ghost predicate PassSettles(s: Symtab, keys: seq<string>) {
    (forall d :: d in Declarations(s) ==> WellFounded(s, d)) && ParentsFirst(s, keys)
  }

  lemma PassSettlesExactly(s: Symtab, keys: seq<string>)
    requires WellOrdered(s) && Enumerates(keys, s.postponed)
    ensures PassOver(s, keys).postponed == map[] <==> PassSettles(s, keys)
  {
    var t := PassOver(s, keys);
    PassFrame(s, keys);
    PassKeepsOrder(s, keys);
    SinglePassIsComplete(s, keys);
    if t.postponed == map[] {
      assert forall d :: d in Declarations(s) ==> d in Declarations(t) && d in t.out;
      forall d | WellFounded(s, d) ensures d in t.out {
        WellFoundedIsDeclared(s, d);
        assert d in Declarations(t);
      }
    }
    if PassSettles(s, keys) {
      assert forall d :: d in Declarations(t) ==> d in t.out;
      assert t.postponed.Keys <= Declarations(t).Keys && t.postponed.Keys !! t.out.Keys;
      assert t.postponed.Keys == {};
    }
  }

  /** At its turn the last symbol has its parents, and the pass it triggers settles everything waiting. */
  ghost predicate LastTurnSettles(imports: set<string>, events: seq<Event>, keys: seq<seq<string>>, j: nat)
    requires |keys| == |events| && j < |events| && events[j].Symbol?
  {
    match ApplyAll(Empty(imports), events[..j], keys[..j])
    case Ok(before) =>
      && AllParentsExist(before, events[j].parents)
      && PassSettles(Register(before, events[j].name, events[j].parents), keys[j])
    case _ => false
  }

  /** The order of `keys[j]` is one the dictionary can give at event `j`. */
  ghost predicate OrderedAt(imports: set<string>, events: seq<Event>, keys: seq<seq<string>>, j: nat)
    requires |keys| == |events| && j < |events|
  {
    match ApplyAll(Empty(imports), events[..j], keys[..j])
    case Ok(before) => Enumerates(keys[j], before.postponed)
    case _ => true
  }

  ghost predicate OidParentsNamed(imports: set<string>, events: seq<Event>) {
    forall p :: p in OidParentsOf(events) ==> p in imports || p in SymbolNames(events)
  }

  lemma NothingWaitsExactly(imports: set<string>, events: seq<Event>, keys: seq<seq<string>>, j: nat)
    requires |keys| == |events| && j < |events| && events[j].Symbol? && NoSymbolAfter(events, j)
    requires ApplyAll(Empty(imports), events, keys).Ok? && OrderedAt(imports, events, keys, j)
    ensures ApplyAll(Empty(imports), events, keys).value.postponed == map[] <==>
      LastTurnSettles(imports, events, keys, j)
  {
    var start := Empty(imports);
    assert events[..|events|] == events && keys[..|keys|] == keys;
    TailKeepsSymbols(start, events, keys, j, |events|);
    assert events[..j + 1][..j] == events[..j] && keys[..j + 1][..j] == keys[..j];
    RunKeepsOrder(start, events[..j], keys[..j]);
    TurnSettlesExactly(ApplyAll(start, events[..j], keys[..j]).value, events[j], keys[j]);
  }

  lemma TurnSettlesExactly(before: Symtab, e: Event, keys: seq<string>)
    requires WellOrdered(before) && e.Symbol? && Apply(before, e, keys).Ok? && Enumerates(keys, before.postponed)
    ensures Apply(before, e, keys).value.postponed == map[] <==>
      AllParentsExist(before, e.parents) && PassSettles(Register(before, e.name, e.parents), keys)
  {
    if AllParentsExist(before, e.parents) {
      RegisterKeepsOrder(before, e.name, e.parents);
      assert Register(before, e.name, e.parents).postponed == before.postponed;
      PassSettlesExactly(Register(before, e.name, e.parents), keys);
    } else {
      assert e.name in Apply(before, e, keys).value.postponed;
    }
  }

  /** A module with symbols, the last of them declared at event `j`, is accepted exactly when no symbol is
      declared twice, every identifier parent is declared or imported, and at its turn the last symbol has
      its parents, every declaration is well-founded, and the dictionary lists what waits after its waiting
      parents. */
  lemma AcceptedExactly(imports: set<string>, events: seq<Event>, keys: seq<seq<string>>, j: nat)
    requires |keys| == |events| && j < |events| && events[j].Symbol? && NoSymbolAfter(events, j)
    requires OrderedAt(imports, events, keys, j)
    ensures GenCode(imports, events, keys).Ok? <==>
      && NoRepeats(SymbolNames(events)) && OidParentsNamed(imports, events)
      && LastTurnSettles(imports, events, keys, j)
  {
    RunsExactly(imports, events, keys);
    if NoRepeats(SymbolNames(events)) {
      NothingWaitsExactly(imports, events, keys, j);
      if ApplyAll(Empty(imports), events, keys).value.postponed == map[] {
        OidParentsExactly(imports, events, keys);
      }
    }
  }

  lemma OidParentsExactly(imports: set<string>, events: seq<Event>, keys: seq<seq<string>>)
    requires |keys| == |events| && ApplyAll(Empty(imports), events, keys).Ok?
    requires ApplyAll(Empty(imports), events, keys).value.postponed == map[]
    ensures OidParentsKnown(ApplyAll(Empty(imports), events, keys).value) <==> OidParentsNamed(imports, events)
  {
    DeclaredAreNamed(imports, events, keys);
    var st := ApplyAll(Empty(imports), events, keys).value;
    assert Declarations(st) == st.out;
  }

  lemma {:induction false} NoSymbolNames(events: seq<Event>)
    requires forall e :: e in events ==> !e.Symbol?
    ensures SymbolNames(events) == []
  {
    if events != [] {
      NoSymbolNames(events[..|events| - 1]);
    }
  }

  /** A module without symbols is accepted exactly when every identifier parent is imported. */
  lemma WithoutSymbols(imports: set<string>, events: seq<Event>, keys: seq<seq<string>>)
    requires |keys| == |events| && forall e :: e in events ==> !e.Symbol?
    ensures GenCode(imports, events, keys).Ok? <==> OidParentsOf(events) <= imports
  {
    RunsExactly(imports, events, keys);
    NoSymbolNames(events);
    DeclaredAreNamed(imports, events, keys);
    var st := ApplyAll(Empty(imports), events, keys).value;
    assert Declarations(st) == map[] && st.out.Keys == {} && st.postponed.Keys == {};
  }

  // ----- single symbols

  /** The names known to every module. */
  const ALWAYS_KNOWN := ["Integer", "Integer32", "Bits", "ObjectIdentifier", "OctetString",
                         "MibTable", "MibTableRow", "MibTableColumn"]

  /** What a parent may be: registered, imported, a row, or always known. */
  lemma KnownParents(st: Symtab, parents: seq<string>)
    ensures AllParentsExist(st, parents) <==> forall p :: p in parents ==>
      p in st.out || p in st.imports || p in st.rows || p in ALWAYS_KNOWN
  {
    if forall p :: p in parents ==> p in st.out || p in st.imports || p in st.rows || p in ALWAYS_KNOWN {
      forall i | 0 <= i < |parents| ensures Known(st, parents[i]) {
        assert parents[i] in parents;
      }
    }
  }

  lemma RunOne(imports: set<string>, e: Event, keys: seq<string>)
    ensures ApplyAll(Empty(imports), [e], [keys]) == Apply(Empty(imports), e, keys)
  {
    assert [e][..0] == [] && [keys][..0] == [];
    assert ApplyAll(Empty(imports), [], []) == Ok(Empty(imports));
  }

  /** A module of one symbol with one parent is accepted exactly when the parent is imported or always known. */
  lemma OneParent(imports: set<string>, s: string, p: string)
    ensures GenCode(imports, [Symbol(s, [p])], [[]]).Ok? <==> p in imports || p in ALWAYS_KNOWN
  {
    var start := Empty(imports);
    RunOne(imports, Symbol(s, [p]), []);
    KnownParents(start, [p]);
    assert p in [p];
    if AllParentsExist(start, [p]) {
      RegisteredAtOnce(start, s, [p], []);
    }
  }

  /** A symbol whose parent is a row of the module is accepted, and one whose identifier names a symbol that
      is neither declared nor imported is not. */
  lemma RowAndOidParent(imports: set<string>, s: string, r: string, keys: seq<seq<string>>)
    requires |keys| == 2 && s != r
    ensures GenCode(imports, [Row(r), Symbol(s, [r])], keys).Ok?
    ensures GenCode(imports, [OidParent(r), Symbol(s, [])], keys).Ok? <==> r in imports
  {
    var start := Empty(imports);
    RunTwo(start, [Row(r), Symbol(s, [r])], keys);
    RunTwo(start, [OidParent(r), Symbol(s, [])], keys);
    var s1, s2 := start.(rows := {r}), start.(oidParents := {r});
    assert {} + {r} == {r};
    assert Apply(start, Row(r), keys[0]) == Ok(s1) && Apply(start, OidParent(r), keys[0]) == Ok(s2);
    RegisteredAtOnce(s1, s, [r], keys[1]);
    RegisteredAtOnce(s2, s, [], keys[1]);
  }

  lemma RunTwo(st: Symtab, events: seq<Event>, keys: seq<seq<string>>)
    requires |events| == |keys| == 2
    ensures ApplyAll(st, events, keys) ==
      match Apply(st, events[0], keys[0]) case Ok(s1) => Apply(s1, events[1], keys[1]) case error => error
  {
    assert events[..1][..0] == [] && keys[..1][..0] == [];
    assert ApplyAll(st, [], []) == Ok(st);
    assert ApplyAll(st, events[..1], keys[..1]) == Apply(st, events[0], keys[0]);
  }
}
