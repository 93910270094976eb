/** Registering the symbols of one MIB module in the order of their parents. */
module Registration {

  /** `out` and `postponed` map a symbol to the parents it was declared with; `order` lists the keys
      of `out` as they were added; `oidParents` are the names used in object identifiers. */
  datatype Symtab = Symtab(
    imports: set<string>, rows: set<string>, oidParents: set<string>,
    out: map<string, seq<string>>, order: seq<string>, postponed: map<string, seq<string>>)

  const BASE_TYPES := {"Integer", "Integer32", "Bits", "ObjectIdentifier", "OctetString"}
  const TABLE_CLASSES := {"MibTable", "MibTableRow", "MibTableColumn"}

  /** The names a parent may have without being registered in this module. */
  function External(st: Symtab): set<string> {
    st.imports + BASE_TYPES + TABLE_CLASSES + st.rows
  }

  predicate Known(st: Symtab, parent: string) {
    parent in st.out || parent in External(st)
  }

  predicate AllParentsExist(st: Symtab, parents: seq<string>) {
    forall i :: 0 <= i < |parents| ==> Known(st, parents[i])
  }

  function Register(st: Symtab, symbol: string, parents: seq<string>): Symtab {
    st.(out := st.out[symbol := parents], order := st.order + [symbol], postponed := st.postponed - {symbol})
  }

  /** One pass over the postponed symbols, met in the order `keys`. */
  function PassOver(st: Symtab, keys: seq<string>): Symtab {
    if keys == [] then st else
    var n := |keys| - 1;
    var s := PassOver(st, keys[..n]);
    if keys[n] in s.postponed && AllParentsExist(s, s.postponed[keys[n]])
    then Register(s, keys[n], s.postponed[keys[n]]) else s
  }

  /** `keys` is an iteration order of the dictionary `m`. */
  ghost predicate Enumerates<V>(keys: seq<string>, m: map<string, V>) {
    (forall i, j :: 0 <= i < j < |keys| ==> keys[i] != keys[j]) && (forall k :: k in keys <==> k in m)
  }

  datatype Result<T> = Ok(value: T) | DuplicateSymbol | UnknownParents | UnknownOidParent

  predicate Declared(st: Symtab, symbol: string) {
    symbol in st.out || symbol in st.postponed
  }

  /** Declaring a symbol; `keys` is the order in which a pass, if there is one, meets the postponed. */
  function RegSym(st: Symtab, symbol: string, parents: seq<string>, keys: seq<string>): Result<Symtab> {
    if Declared(st, symbol) then DuplicateSymbol
    else if AllParentsExist(st, parents) then Ok(PassOver(Register(st, symbol, parents), keys))
    else Ok(st.(postponed := st.postponed[symbol := parents]))
  }

  /** What a declaration does to the table, in source order. */
  datatype Event = Row(name: string) | OidParent(name: string) | Symbol(name: string, parents: seq<string>)

  function Apply(st: Symtab, e: Event, keys: seq<string>): Result<Symtab> {
    match e
    case Row(name) => Ok(st.(rows := st.rows + {name}))
    case OidParent(name) => Ok(st.(oidParents := st.oidParents + {name}))
    case Symbol(name, parents) => RegSym(st, name, parents, keys)
  }

  /** All declarations, with the dictionary order met at each. */
  function ApplyAll(st: Symtab, events: seq<Event>, keys: seq<seq<string>>): Result<Symtab>
    requires |keys| == |events|
  {
    if events == [] then Ok(st) else
    var n := |events| - 1;
    match ApplyAll(st, events[..n], keys[..n])
    case Ok(s) => Apply(s, events[n], keys[n])
    case error => error
  }

  function Empty(imports: set<string>): Symtab {
    Symtab(imports, {}, {}, map[], [], map[])
  }

  predicate OidParentsKnown(st: Symtab) {
    forall p :: p in st.oidParents ==> p in st.out || p in st.imports
  }

  /** The whole module: refused when a symbol is still postponed at the end, or the parent of an object
      identifier is neither declared nor imported. */
  function GenCode(imports: set<string>, events: seq<Event>, keys: seq<seq<string>>): Result<Symtab>
    requires |keys| == |events|
  {
    match ApplyAll(Empty(imports), events, keys)
    case Ok(s) =>
      if s.postponed != map[] then UnknownParents else if OidParentsKnown(s) then Ok(s) else UnknownOidParent
    case error => error
  }

  // ----- the generator

  class SymtableCodeGen {
    var imports: set<string>
    var rows: set<string>
    var parentOids: set<string>
    var out: map<string, seq<string>>
    var symsOrder: seq<string>
    var postponedSyms: map<string, seq<string>>

    function State(): Symtab
      reads this
    {
      Symtab(imports, rows, parentOids, out, symsOrder, postponedSyms)
    }

    constructor (imports: set<string>)
      ensures State() == Empty(imports)
    {
      this.imports := imports;
      rows, parentOids, out, symsOrder, postponedSyms := {}, {}, map[], [], map[];
    }

    method AllParentsExists(parents: seq<string>) returns (parentsExists: bool)
      ensures parentsExists == AllParentsExist(State(), parents)
      ensures parentsExists <==> forall i :: 0 <= i < |parents| ==>
        || parents[i] in out || parents[i] in imports || parents[i] in rows
        || parents[i] in ["Integer", "Integer32", "Bits", "ObjectIdentifier", "OctetString"]
        || parents[i] in ["MibTable", "MibTableRow", "MibTableColumn"]
    {
      parentsExists := true;
      for i := 0 to |parents|
        invariant parentsExists
        invariant forall j :: 0 <= j < i ==> Known(State(), parents[j])
      {
        var parent := parents[i];
        if !(parent in out || parent in imports || parent in BASE_TYPES || parent in TABLE_CLASSES || parent in rows) {
          assert !Known(State(), parents[i]);
          parentsExists := false;
          break;
        }
      }
    }

    /** The dictionary gives its items in some order; registered symbols are dropped after the loop. */
    method RegPostponedSyms() returns (ghost keys: seq<string>)
      modifies this`out, this`symsOrder, this`postponedSyms
      ensures Enumerates(keys, old(postponedSyms))
      ensures State() == PassOver(old(State()), keys)
    {
      var regedSyms: set<string> := {};
      var items := postponedSyms.Keys;
      keys := [];
      ghost var start := State();
      while items != {}
        invariant postponedSyms == old(postponedSyms) && imports == start.imports && rows == start.rows &&
          parentOids == start.oidParents
        invariant items <= postponedSyms.Keys
        invariant forall k :: k in keys <==> k in postponedSyms && k !in items
        invariant forall i, j :: 0 <= i < j < |keys| ==> keys[i] != keys[j]
        invariant regedSyms !! items
        invariant PassOver(start, keys) == State().(postponed := postponedSyms - regedSyms)
        decreases items
      {
        var sym :| sym in items;
        var exist := AllParentsExists(postponedSyms[sym]);
        assert (keys + [sym])[..|keys|] == keys;
        if exist {
          out := out[sym := postponedSyms[sym]];
          symsOrder := symsOrder + [sym];
          regedSyms := regedSyms + {sym};
          assert postponedSyms - regedSyms == (postponedSyms - (regedSyms - {sym})) - {sym};
        }
        items := items - {sym};
        keys := keys + [sym];
      }
      postponedSyms := postponedSyms - regedSyms;
    }

    method RegSymbol(symbol: string, parents: seq<string>) returns (ok: bool, ghost keys: seq<string>)
      modifies this`out, this`symsOrder, this`postponedSyms
      ensures ok <==> !Declared(old(State()), symbol)
      ensures ok ==> Ok(State()) == RegSym(old(State()), symbol, parents, keys)
      ensures !ok ==> State() == old(State()) && RegSym(old(State()), symbol, parents, keys) == DuplicateSymbol
      ensures ok && AllParentsExist(old(State()), parents) ==> Enumerates(keys, old(postponedSyms))
    {
      keys := [];
      if symbol in out || symbol in postponedSyms {
        return false, keys;
      }
      var exist := AllParentsExists(parents);
      if exist {
        assert postponedSyms - {symbol} == postponedSyms;
        out := out[symbol := parents];
        symsOrder := symsOrder + [symbol];
        keys := RegPostponedSyms();
      } else {
        postponedSyms := postponedSyms[symbol := parents];
      }
      return true, keys;
    }

    method GenerateCode(events: seq<Event>) returns (accepted: bool, ghost keys: seq<seq<string>>)
      requires State() == Empty(imports)
      modifies this
      ensures |keys| == |events| && imports == old(imports)
      ensures accepted <==> GenCode(imports, events, keys).Ok?
      ensures accepted ==> GenCode(imports, events, keys) == Ok(State())
    {
      keys := [];
      ghost var start := State();
      for i := 0 to |events|
        invariant |keys| == i && imports == start.imports
        invariant ApplyAll(start, events[..i], keys) == Ok(State())
      {
        ghost var key := [];
        var ok := true;
        assert events[..i + 1][..i] == events[..i];
        match events[i] {
          case Row(name) => rows := rows + {name};
          case OidParent(name) => parentOids := parentOids + {name};
          case Symbol(name, parents) => ok, key := RegSymbol(name, parents);
        }
        ghost var before := keys;
        keys := keys + [key];
        assert keys[..i] == before;
        if !ok {
          keys := keys + seq(|events| - i - 1, _ => []);
          ErrorsStay(start, events, keys, i + 1);
          return false, keys;
        }
      }
      assert events[..|events|] == events;
      if postponedSyms != map[] {
        return false, keys;
      }
      accepted := CheckOidParents();
    }

    method CheckOidParents() returns (known: bool)
      ensures known == OidParentsKnown(State())
    {
      var syms := parentOids;
      while syms != {}
        invariant syms <= parentOids
        invariant forall p :: p in parentOids && p !in syms ==> p in out || p in imports
        decreases syms
      {
        var sym :| sym in syms;
        if sym !in out && sym !in imports {
          return false;
        }
        syms := syms - {sym};
      }
      known := true;
    }
  }

  lemma {:induction false} ErrorsStay(st: Symtab, events: seq<Event>, keys: seq<seq<string>>, i: nat)
    requires |keys| == |events| && i <= |events| && !ApplyAll(st, events[..i], keys[..i]).Ok?
    ensures !ApplyAll(st, events, keys).Ok?
  {
    if i == |events| {
      assert events[..i] == events && keys[..i] == keys;
    } else {
      var n := |events| - 1;
      assert events[..n][..i] == events[..i] && keys[..n][..i] == keys[..i];
      ErrorsStay(st, events[..n], keys[..n], i);
    }
  }
}
