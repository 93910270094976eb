/** Chasing a type to its base type, extending the enumeration lists of the symbol table in place. */
module BaseTypes {
  import opened Words
  import opened Registration

  /** A symbol and the module that defines it. */
  type Key = (string, string)

  type Pair = (string, int)

  /** A list of named values, shared by everything that holds a reference to it. */
  class EnumList {
    var items: seq<Pair>

    constructor (items: seq<Pair>)
      ensures this.items == items
    {
      this.items := items;
    }
  }

  /** The syntax of a symbol: its type and the module of that type, and a list when the subtype is one.
      A symbol without syntax has the type name "". */
  datatype Entry = Entry(parent: Key, sub: EnumList?)

  /** Symbols by module, then by name. */
  type Table = map<string, map<string, Entry>>

  datatype TypeError = NoModule | NoSymbol | UnknownType

  datatype Resolved<T> = Found(value: T) | Failed(error: TypeError)

  predicate Has(table: Table, k: Key) {
    k.1 in table && k.0 in table[k.1]
  }

  function At(table: Table, k: Key): Entry
    requires Has(table, k)
  {
    table[k.1][k.0]
  }

  ghost function Lists(table: Table): set<EnumList> {
    set k: Key | k.1 in table && k.0 in table[k.1] && table[k.1][k.0].sub != null :: table[k.1][k.0].sub
  }

  /** Each list belongs to one symbol. */
  ghost predicate DistinctLists(table: Table) {
    forall k, l: Key :: Has(table, k) && Has(table, l) && At(table, k).sub != null &&
      At(table, k).sub == At(table, l).sub
      ==> k == l
  }

  /** The chase goes on from `k` to the type of `k`. */
  predicate GoesOn(table: Table, k: Key) {
    && Has(table, k) && At(table, k).parent.0 != "" && At(table, k).parent.0 !in BASE_TYPES
    && Has(table, At(table, k).parent)
  }

  function Keys(table: Table): set<Key> {
    set mib, s | mib in table.Keys && s in table[mib].Keys :: (s, mib)
  }

  /** The symbols the chase from `k` comes through, cut off after `n` steps. */
  function Chase(table: Table, k: Key, n: nat): (path: seq<Key>)
    ensures path != [] && path[0] == k && |path| <= n + 1
    decreases n
  {
    if n == 0 || !GoesOn(table, k) then [k] else [k] + Chase(table, At(table, k).parent, n - 1)
  }

  /** The chase from `k` ends within as many steps as there are symbols. */
  predicate Finishes(table: Table, k: Key) {
    |Chase(table, k, |Keys(table)|)| <= |Keys(table)| || !Has(table, k)
  }

  function Length(table: Table, k: Key): nat {
    |Chase(table, k, |Keys(table)|)|
  }

  lemma {:induction false} ShortChaseIsWhole(table: Table, k: Key, n: nat)
    requires |Chase(table, k, n)| <= n
    ensures Chase(table, k, n + 1) == Chase(table, k, n)
    decreases n
  {
    if n > 0 && GoesOn(table, k) {
      ShortChaseIsWhole(table, At(table, k).parent, n - 1);
    }
  }

  /** One step on, the rest of the chase is shorter. */
  lemma ChaseNext(table: Table, k: Key)
    requires GoesOn(table, k) && Finishes(table, k)
    ensures Finishes(table, At(table, k).parent) && Length(table, k) == Length(table, At(table, k).parent) + 1
  {
    assert k in Keys(table);
    ShortChaseIsWhole(table, At(table, k).parent, |Keys(table)| - 1);
  }

  /** dict(s): the last entry of a name wins. */
  function Dict(s: seq<Pair>): map<string, int> {
    if s == [] then map[] else
    var n := |s| - 1;
    Dict(s[..n])[s[n].0 := s[n].1]
  }

  lemma {:induction false} DictAppend(a: seq<Pair>, b: seq<Pair>)
    ensures Dict(a + b) == Dict(a) + Dict(b)
  {
    if b == [] {
      assert a + b == a;
    } else {
      var n := |b| - 1;
      assert (a + b)[..|a + b| - 1] == a + b[..n];
      DictAppend(a, b[..n]);
    }
  }

  // ----- the answer, computed on the table as it was built

  function BaseOf(table: Table, k: Key): Resolved<Key>
    requires Finishes(table, k)
    decreases Length(table, k)
  {
    if k.1 !in table then Failed(NoModule)
    else if k.0 !in table[k.1] then Failed(NoSymbol)
    else
      var parent := At(table, k).parent;
      if parent.0 == "" then Failed(UnknownType)
      else if parent.0 in BASE_TYPES then Found(parent)
      else if parent.1 !in table then Failed(NoModule)
      else if parent.0 !in table[parent.1] then Failed(NoSymbol)
      else ChaseNext(table, k); BaseOf(table, parent)
  }

  ghost predicate HasInitial(table: Table, initial: map<EnumList, seq<Pair>>) {
    forall list :: list in Lists(table) ==> list in initial
  }

  /** The enumeration of a type: its own names overridden by those of the types below it. */
  ghost function Enumeration(table: Table, initial: map<EnumList, seq<Pair>>, k: Key): Option<map<string, int>>
    requires Finishes(table, k) && HasInitial(table, initial) && Has(table, k)
    decreases Length(table, k)
  {
    var e := At(table, k);
    var own := if e.sub == null then None else (assert e.sub in Lists(table); Some(Dict(initial[e.sub])));
    if !GoesOn(table, k) then own
    else
      ChaseNext(table, k);
      match Enumeration(table, initial, e.parent)
      case None => own
      case Some(names) => Some(if own.Some? then own.value + names else names)
  }

  /** The chase from `k` comes through `l`. */
  predicate OnChain(table: Table, k: Key, l: Key)
    requires Finishes(table, k)
    decreases Length(table, k)
  {
    k == l || (GoesOn(table, k) && (ChaseNext(table, k); OnChain(table, At(table, k).parent, l)))
  }

  /** The chase from `k`, where it finds a base type, comes back with a list. */
  predicate HasEnumeration(table: Table, k: Key)
    requires Finishes(table, k) && Has(table, k)
    decreases Length(table, k)
  {
    At(table, k).sub != null || (GoesOn(table, k) && (ChaseNext(table, k); HasEnumeration(table, At(table, k).parent)))
  }

  /** `l` has a list of its own and refines a type with one. */
  predicate Refines(table: Table, l: Key)
    requires Finishes(table, l)
  {
    && Has(table, l) && At(table, l).sub != null && GoesOn(table, l)
    && (ChaseNext(table, l); HasEnumeration(table, At(table, l).parent))
  }

  /** A chase from `k` extends the list of `l`; one that ends in an error extends none. */
  predicate Touches(table: Table, k: Key, l: Key)
    requires Finishes(table, k)
  {
    BaseOf(table, k).Found? && OnChain(table, k, l) && (ChainFinishes(table, k, l); Refines(table, l))
  }

  lemma {:induction false} ChainFinishes(table: Table, k: Key, l: Key)
    requires Finishes(table, k) && OnChain(table, k, l)
    ensures Finishes(table, l) && Length(table, l) <= Length(table, k)
    ensures k != l ==> Length(table, l) < Length(table, k)
    decreases Length(table, k)
  {
    if k != l {
      ChaseNext(table, k);
      ChainFinishes(table, At(table, k).parent, l);
    }
  }

  // ----- the code

  /** Every list is as built, or already merged: what each call relies on and keeps. */
  ghost predicate MergedOrNot(table: Table, initial: map<EnumList, seq<Pair>>)
    requires HasInitial(table, initial)
    reads Lists(table)
  {
    forall k: Key :: Has(table, k) && At(table, k).sub != null ==>
      var list := At(table, k).sub;
      assert list in Lists(table);
      || Dict(list.items) == Dict(initial[list])
      || (Finishes(table, k) && Enumeration(table, initial, k) == Some(Dict(list.items)))
  }

  /** The list a call returns belongs to the symbol or to one its chase comes through. */
  ghost predicate OwnedOnChain(table: Table, list: EnumList, k: Key)
    requires Finishes(table, k)
  {
    exists owner: Key :: OnChain(table, k, owner) && Has(table, owner) && At(table, owner).sub == list
  }

  ghost predicate NoEmptyList(table: Table)
    reads Lists(table)
  {
    forall list :: list in Lists(table) ==> list.items != []
  }

  /** The list of a symbol extended by that of its type. */
  method ExtendList(ghost table: Table, ghost k: Key, list: EnumList, base: EnumList,
                    ghost initial: map<EnumList, seq<Pair>>)
    requires DistinctLists(table) && HasInitial(table, initial) && MergedOrNot(table, initial)
    requires GoesOn(table, k) && Finishes(table, k) && Finishes(table, At(table, k).parent)
    requires list == At(table, k).sub && base in Lists(table) && base != list
    requires Enumeration(table, initial, At(table, k).parent) == Some(Dict(base.items))
    modifies list
    ensures list.items == old(list.items) + old(base.items)
    ensures MergedOrNot(table, initial) && list in Lists(table)
    ensures Enumeration(table, initial, k) == Some(Dict(list.items))
  {
    assert list in Lists(table);
    ghost var names := Dict(base.items);
    DictAppend(list.items, base.items);
    MergeTwice(Dict(initial[list]), names);
    assert Enumeration(table, initial, k) == Some(Dict(initial[list]) + names);
    OthersKeepLists(table, k);
    list.items := list.items + base.items;
  }

  method GetBaseType(table: Table, k: Key, ghost initial: map<EnumList, seq<Pair>>)
    returns (r: Resolved<(Key, EnumList?)>)
    requires Finishes(table, k) && DistinctLists(table) && HasInitial(table, initial)
    requires MergedOrNot(table, initial)
    modifies Lists(table)
    ensures MergedOrNot(table, initial)
    ensures r.Failed? ==> BaseOf(table, k) == Failed(r.error)
    ensures r.Failed? ==> forall list :: list in Lists(table) ==> list.items == old(list.items)
    ensures r.Found? ==> BaseOf(table, k) == Found(r.value.0) && Has(table, k)
    ensures r.Found? && r.value.1 == null ==> Enumeration(table, initial, k) == None
    ensures r.Found? && r.value.1 != null ==>
      && OwnedOnChain(table, r.value.1, k) && r.value.1 in Lists(table)
      && Enumeration(table, initial, k) == Some(Dict(r.value.1.items))
    ensures r.Found? ==> (r.value.1 != null <==> HasEnumeration(table, k))
    ensures forall list :: list in Lists(table) ==> old(list.items) <= list.items
    ensures forall l: Key :: Has(table, l) && At(table, l).sub != null && !Touches(table, k, l) ==>
      At(table, l).sub.items == old(At(table, l).sub.items)
    ensures old(NoEmptyList(table)) ==> forall l: Key :: Has(table, l) && Touches(table, k, l) ==>
      At(table, l).sub.items != old(At(table, l).sub.items)
    decreases Length(table, k)
  {
    if k.1 !in table {
      return Failed(NoModule);
    }
    if k.0 !in table[k.1] {
      return Failed(NoSymbol);
    }
    var Entry(symType, symSubtype) := table[k.1][k.0];
    if symType.0 == "" {
      return Failed(UnknownType);
    }
    assert Has(table, k) && At(table, k) == Entry(symType, symSubtype);
    if symSubtype != null {
      assert symSubtype in Lists(table);
    }
    if symType.0 in BASE_TYPES {
      return Found((symType, symSubtype));
    }
    if symType.1 in table && symType.0 in table[symType.1] {
      ChaseNext(table, k);
      var base := GetBaseType(table, symType, initial);
      if base.Failed? {
        return Failed(base.error);
      }
      var (baseSymType, baseSymSubtype) := base.value;
      if baseSymSubtype != null {
        if symSubtype != null {
          NotOwnList(table, baseSymSubtype, symType, k);
          OthersKeepLists(table, k);
          ExtendList(table, k, symSubtype, baseSymSubtype, initial);
        } else {
          symSubtype := baseSymSubtype;
        }
      }
      return Found((baseSymType, symSubtype));
    }
    return Failed(if symType.1 !in table then NoModule else NoSymbol);
  }

  lemma MergeTwice(own: map<string, int>, names: map<string, int>)
    ensures own + names + names == own + names
  {
  }

  lemma NotOwnList(table: Table, list: EnumList, parent: Key, k: Key)
    requires DistinctLists(table) && GoesOn(table, k) && Finishes(table, k) && parent == At(table, k).parent
    requires Finishes(table, parent) && OwnedOnChain(table, list, parent)
    ensures At(table, k).sub != list && OwnedOnChain(table, list, k)
  {
    var owner: Key :| OnChain(table, parent, owner) && Has(table, owner) && At(table, owner).sub == list;
    ChaseNext(table, k);
    ChainFinishes(table, parent, owner);
  }

  lemma OthersKeepLists(table: Table, k: Key)
    requires DistinctLists(table) && Has(table, k) && At(table, k).sub != null
    ensures forall l: Key :: Has(table, l) && l != k ==> At(table, l).sub != At(table, k).sub
  {
  }

  /** Any number of calls, on any symbols in any order, starting from the table as built: the lists keep
      growing, yet the mapping read after each call is the same merge of the lists as first built. */
  method GetBaseTypes(table: Table, keys: seq<Key>)
    returns (answers: seq<Resolved<(Key, Option<map<string, int>>)>>, ghost initial: map<EnumList, seq<Pair>>)
    requires DistinctLists(table) && forall i :: 0 <= i < |keys| ==> Finishes(table, keys[i])
    modifies Lists(table)
    ensures HasInitial(table, initial) && forall list :: list in Lists(table) ==> initial[list] == old(list.items)
    ensures |answers| == |keys|
    ensures forall i :: 0 <= i < |keys| ==>
      answers[i] == match BaseOf(table, keys[i])
        case Failed(error) => Failed(error)
        case Found(base) => Found((base, Enumeration(table, initial, keys[i])))
  {
    initial := map list | list in Lists(table) :: list.items;
    answers := [];
    for i := 0 to |keys|
      invariant MergedOrNot(table, initial)
      invariant |answers| == i
      invariant forall j :: 0 <= j < i ==>
        answers[j] == match BaseOf(table, keys[j])
          case Failed(error) => Failed(error)
          case Found(base) => Found((base, Enumeration(table, initial, keys[j])))
    {
      var r := GetBaseType(table, keys[i], initial);
      match r {
        case Failed(error) => answers := answers + [Failed(error)];
        case Found((base, list)) =>
          answers := answers + [Found((base, if list == null then None else Some(Dict(list.items))))];
      }
    }
  }

  // ----- what code generation writes for an enumeration

  /** Code generation, over all modules, either works out a default value, which chases the type of an
      object, or writes the enumeration of a symbol from its list, which is the list of the parsed module
      itself. An error ends a module, and the tasks go on with the next. */
  datatype Task = DefVal(key: Key) | Write(key: Key)

  predicate DefaultsFinish(table: Table, tasks: seq<Task>) {
    forall i :: 0 <= i < |tasks| && tasks[i].DefVal? ==> Finishes(table, tasks[i].key)
  }

  /** Some default value before task `i` extended the list of `l`. */
  ghost predicate TouchedBefore(table: Table, tasks: seq<Task>, i: nat, l: Key)
    requires DefaultsFinish(table, tasks) && i <= |tasks|
  {
    exists j :: 0 <= j < i && tasks[j].DefVal? && Touches(table, tasks[j].key, l)
  }

  /** A list is as built exactly as long as no default value has touched its symbol. */
  ghost predicate ListsTell(table: Table, initial: map<EnumList, seq<Pair>>, tasks: seq<Task>, i: nat)
    requires DefaultsFinish(table, tasks) && HasInitial(table, initial) && i <= |tasks|
    reads Lists(table)
  {
    forall l: Key :: Has(table, l) && At(table, l).sub != null ==>
      var list := At(table, l).sub;
      assert list in Lists(table);
      initial[list] <= list.items && (list.items == initial[list] <==> !TouchedBefore(table, tasks, i, l))
  }

  lemma TouchedNext(table: Table, tasks: seq<Task>, i: nat, l: Key)
    requires DefaultsFinish(table, tasks) && i < |tasks|
    ensures TouchedBefore(table, tasks, i + 1, l) <==>
      TouchedBefore(table, tasks, i, l) || (tasks[i].DefVal? && Touches(table, tasks[i].key, l))
  {
  }

  /** The list of a symbol that has one. */
  function ListOf(table: Table, k: Key): (list: EnumList?)
    ensures list != null ==> list in Lists(table)
  {
    if Has(table, k) then At(table, k).sub else null
  }

  method WorkOutDefault(table: Table, tasks: seq<Task>, i: nat, ghost initial: map<EnumList, seq<Pair>>)
    requires DefaultsFinish(table, tasks) && DistinctLists(table) && HasInitial(table, initial)
    requires i < |tasks| && tasks[i].DefVal? && (forall list :: list in Lists(table) ==> initial[list] != [])
    requires MergedOrNot(table, initial) && ListsTell(table, initial, tasks, i)
    modifies Lists(table)
    ensures MergedOrNot(table, initial)
    ensures ListsTell(table, initial, tasks, i + 1)
  {
    forall list | list in Lists(table) ensures list.items != [] {
      var k: Key :| k.1 in table && k.0 in table[k.1] && table[k.1][k.0].sub == list;
      assert Has(table, k) && At(table, k).sub == list;
    }
    var r := GetBaseType(table, tasks[i].key, initial);
    forall l: Key | Has(table, l) && At(table, l).sub != null
      ensures var list := At(table, l).sub;
        assert list in Lists(table);
        initial[list] <= list.items && (list.items == initial[list] <==> !TouchedBefore(table, tasks, i + 1, l))
    {
      TouchedNext(table, tasks, i, l);
    }
  }

  /** The enumeration written for a type is the one it declares exactly when no default value worked out
      before chased through it to a type with an enumeration. */
  method WriteEnumerations(table: Table, tasks: seq<Task>)
    returns (texts: seq<Option<seq<Pair>>>, ghost initial: map<EnumList, seq<Pair>>)
    requires DefaultsFinish(table, tasks) && DistinctLists(table) && NoEmptyList(table)
    modifies Lists(table)
    ensures HasInitial(table, initial) && forall list :: list in Lists(table) ==> initial[list] == old(list.items)
    ensures |texts| == |tasks|
    ensures forall i :: 0 <= i < |tasks| && tasks[i].Write? && ListOf(table, tasks[i].key) != null ==>
      (texts[i] == Some(initial[ListOf(table, tasks[i].key)]) <==> !TouchedBefore(table, tasks, i, tasks[i].key))
  {
    initial := map list | list in Lists(table) :: list.items;
    texts := [];
    for i := 0 to |tasks|
      invariant |texts| == i
      invariant MergedOrNot(table, initial) && ListsTell(table, initial, tasks, i)
      invariant forall j :: 0 <= j < i && tasks[j].Write? && ListOf(table, tasks[j].key) != null ==>
        (texts[j] == Some(initial[ListOf(table, tasks[j].key)]) <==> !TouchedBefore(table, tasks, j, tasks[j].key))
    {
      var text: Option<seq<Pair>> := None;
      match tasks[i] {
        case DefVal(_) =>
          WorkOutDefault(table, tasks, i, initial);
        case Write(key) =>
          var list := ListOf(table, key);
          if list != null {
            text := Some(list.items);
          }
          forall l: Key ensures TouchedBefore(table, tasks, i + 1, l) <==> TouchedBefore(table, tasks, i, l) {
            TouchedNext(table, tasks, i, l);
          }
      }
      texts := texts + [text];
    }
  }
}
