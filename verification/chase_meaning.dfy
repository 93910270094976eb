/** What the chase of a type finds, said on the chain of symbols it comes through. */
module ChaseMeaning {
  import opened Words
  import opened Pigeonhole
  import opened BaseTypes

  /** The types at which a chase succeeds. */
  predicate IsBase(name: string) {
    name in ["Integer", "Integer32", "Bits", "ObjectIdentifier", "OctetString"]
  }

  /** Each symbol is in the table and is the type of the one before, which is not a base type; the type of
      the last is none, a base type, or not in the table. */
  predicate IsChain(table: Table, path: seq<Key>) {
    && path != []
    && (forall i :: 0 <= i < |path| ==> Has(table, path[i]))
    && (forall i :: 0 < i < |path| ==> LeadsOn(table, path[i - 1], path[i]))
    && EndsAt(table, path[|path| - 1])
  }

  predicate LeadsOn(table: Table, k: Key, next: Key) {
    Has(table, k) && next == At(table, k).parent && next.0 != "" && !IsBase(next.0)
  }

  predicate EndsAt(table: Table, k: Key) {
    Has(table, k) &&
    var parent := At(table, k).parent; parent.0 == "" || IsBase(parent.0) || !Has(table, parent)
  }

  lemma ChainGoesOn(table: Table, path: seq<Key>)
    requires IsChain(table, path)
    ensures |path| == 1 ==> !GoesOn(table, path[0])
    ensures |path| > 1 ==> GoesOn(table, path[0]) && path[1] == At(table, path[0]).parent && IsChain(table, path[1..])
  {
    if |path| > 1 {
      assert LeadsOn(table, path[1 - 1], path[1]);
      var rest := path[1..];
      forall i | 0 < i < |rest| ensures LeadsOn(table, rest[i - 1], rest[i]) {
        assert LeadsOn(table, path[i + 1 - 1], path[i + 1]);
      }
    }
  }

  lemma {:induction false} ChainIsChase(table: Table, path: seq<Key>, n: nat)
    requires IsChain(table, path) && |path| <= n
    ensures Chase(table, path[0], n) == path
    decreases |path|
  {
    ChainGoesOn(table, path);
    if |path| > 1 {
      ChainIsChase(table, path[1..], n - 1);
      assert [path[0]] + path[1..] == path;
    }
  }

  /** A chase that ends comes through a chain, and a symbol that starts a chain has a chase that ends. */
  lemma {:induction false} EndingChaseIsChain(table: Table, k: Key) returns (path: seq<Key>)
    requires Has(table, k) && Finishes(table, k)
    ensures IsChain(table, path) && path[0] == k
    decreases Length(table, k)
  {
    if GoesOn(table, k) {
      ChaseNext(table, k);
      var rest := EndingChaseIsChain(table, At(table, k).parent);
      path := [k] + rest;
      forall i | 0 < i < |path| ensures LeadsOn(table, path[i - 1], path[i]) {
        if i > 1 {
          assert LeadsOn(table, rest[i - 2], rest[i - 1]);
        }
      }
    } else {
      path := [k];
    }
  }

  /** No symbol comes twice on a chain, so it is no longer than the table. */
  lemma ChainFits(table: Table, path: seq<Key>)
    requires IsChain(table, path)
    ensures |path| <= |Keys(table)|
  {
    var n := |path|;
    forall i | 0 <= i < |path| ensures path[i] in Keys(table) {
      assert Has(table, path[i]);
    }
    forall i, j | 0 <= i < j < |path| ensures path[i] != path[j] {
      SuffixIsChain(table, path, i);
      SuffixIsChain(table, path, j);
      if path[i] == path[j] {
        ChainIsChase(table, path[i..], n);
        ChainIsChase(table, path[j..], n);
      }
    }
    Distinct(path, Keys(table));
  }

  lemma SuffixIsChain(table: Table, path: seq<Key>, i: nat)
    requires IsChain(table, path) && i < |path|
    ensures IsChain(table, path[i..])
  {
    var rest := path[i..];
    forall j | 0 < j < |rest| ensures LeadsOn(table, rest[j - 1], rest[j]) {
      assert LeadsOn(table, path[i + j - 1], path[i + j]);
    }
  }

  lemma ChainFinishes(table: Table, path: seq<Key>)
    requires IsChain(table, path)
    ensures Finishes(table, path[0])
  {
    ChainFits(table, path);
    ChainIsChase(table, path, |Keys(table)|);
  }

  /** The chase succeeds exactly when the type of the last symbol is a base type, and then finds that type;
      otherwise the error says what the last type lacks. */
  lemma {:induction false} ChainDecides(table: Table, path: seq<Key>)
    requires IsChain(table, path)
    ensures Finishes(table, path[0])
    ensures var last := At(table, path[|path| - 1]).parent;
      BaseOf(table, path[0]) ==
        if last.0 == "" then Failed(UnknownType)
        else if IsBase(last.0) then Found(last)
        else if last.1 !in table then Failed(NoModule)
        else Failed(NoSymbol)
    decreases |path|
  {
    ChainFinishes(table, path);
    ChainGoesOn(table, path);
    if |path| > 1 {
      ChainDecides(table, path[1..]);
    }
  }

  /** What is not in the table at all is refused at once. */
  lemma AbsentSymbol(table: Table, k: Key)
    requires !Has(table, k)
    ensures Finishes(table, k) && BaseOf(table, k) == Failed(if k.1 in table then NoSymbol else NoModule)
  {
  }

  // ----- the enumeration

  /** The names in a list, each with the number of its last entry. */
  lemma {:induction false} DictOfList(s: seq<Pair>, i: nat)
    requires i < |s| && forall j :: i < j < |s| ==> s[j].0 != s[i].0
    ensures s[i].0 in Dict(s) && Dict(s)[s[i].0] == s[i].1
    decreases |s|
  {
    var n := |s| - 1;
    if i < n {
      DictOfList(s[..n], i);
    }
  }

  lemma {:induction false} DictNames(s: seq<Pair>, name: string)
    ensures name in Dict(s) <==> exists i :: 0 <= i < |s| && s[i].0 == name
  {
    if s != [] {
      var n := |s| - 1;
      DictNames(s[..n], name);
      assert s == s[..n] + [s[n]];
      if name == s[n].0 {
        assert s[n].0 == name;
      }
    }
  }

  /** The list of `k` has `name`. */
  ghost predicate Names(table: Table, initial: map<EnumList, seq<Pair>>, k: Key, name: string)
    requires HasInitial(table, initial)
  {
    var list := ListOf(table, k);
    list != null && exists j :: 0 <= j < |initial[list]| && initial[list][j].0 == name
  }

  lemma OwnNames(table: Table, initial: map<EnumList, seq<Pair>>, k: Key, name: string)
    requires HasInitial(table, initial) && ListOf(table, k) != null
    ensures name in Dict(initial[ListOf(table, k)]) <==> Names(table, initial, k, name)
  {
    DictNames(initial[ListOf(table, k)], name);
  }

  ghost predicate SomeNames(table: Table, initial: map<EnumList, seq<Pair>>, path: seq<Key>, name: string)
    requires HasInitial(table, initial)
  {
    exists i :: 0 <= i < |path| && Names(table, initial, path[i], name)
  }

  ghost predicate SomeList(table: Table, path: seq<Key>) {
    exists i :: 0 <= i < |path| && ListOf(table, path[i]) != null
  }

  lemma FirstAndRest(table: Table, initial: map<EnumList, seq<Pair>>, path: seq<Key>, name: string)
    requires HasInitial(table, initial) && path != []
    ensures SomeNames(table, initial, path, name) <==>
      Names(table, initial, path[0], name) || SomeNames(table, initial, path[1..], name)
    ensures SomeList(table, path) <==> ListOf(table, path[0]) != null || SomeList(table, path[1..])
  {
    var rest := path[1..];
    if i :| 0 <= i < |path| && Names(table, initial, path[i], name) {
      assert i > 0 ==> rest[i - 1] == path[i];
    }
    if i :| 0 <= i < |rest| && Names(table, initial, rest[i], name) {
      assert path[i + 1] == rest[i];
    }
    if i :| 0 <= i < |path| && ListOf(table, path[i]) != null {
      assert i > 0 ==> rest[i - 1] == path[i];
    }
    if i :| 0 <= i < |rest| && ListOf(table, rest[i]) != null {
      assert path[i + 1] == rest[i];
    }
  }

  lemma EnumerationNext(table: Table, initial: map<EnumList, seq<Pair>>, k: Key)
    requires Finishes(table, k) && Has(table, k) && HasInitial(table, initial)
    ensures var own := ListOf(table, k);
      var mine := if own == null then None else Some(Dict(initial[own]));
      Enumeration(table, initial, k) ==
        if !GoesOn(table, k) then mine
        else (
          ChaseNext(table, k);
          match (mine, Enumeration(table, initial, At(table, k).parent))
          case (_, None) => mine
          case (None, theirs) => theirs
          case (Some(a), Some(b)) => Some(a + b))
  {
  }

  /** A symbol has an enumeration exactly when some symbol of the chain has a list, and its names are those
      of all the lists. */
  lemma {:induction false} EnumerationOfChain(
      table: Table, initial: map<EnumList, seq<Pair>>, path: seq<Key>, name: string)
    requires IsChain(table, path) && HasInitial(table, initial)
    ensures Finishes(table, path[0])
    ensures Enumeration(table, initial, path[0]).Some? <==> SomeList(table, path)
    ensures Enumeration(table, initial, path[0]).Some? ==>
      (name in Enumeration(table, initial, path[0]).value <==> SomeNames(table, initial, path, name))
    decreases |path|
  {
    ChainFinishes(table, path);
    ChainGoesOn(table, path);
    FirstAndRest(table, initial, path, name);
    EnumerationNext(table, initial, path[0]);
    if ListOf(table, path[0]) != null {
      OwnNames(table, initial, path[0], name);
    }
    if |path| > 1 {
      ChaseNext(table, path[0]);
      EnumerationOfChain(table, initial, path[1..], name);
      assert path[1..][0] == path[1];
    } else {
      assert path[1..] == [];
    }
  }

  /** A name has the number of its last entry in the list nearest to the base type. */
  lemma {:induction false} NumberOfChain(
      table: Table, initial: map<EnumList, seq<Pair>>, path: seq<Key>, i: nat, j: nat)
    requires IsChain(table, path) && HasInitial(table, initial) && i < |path| && ListOf(table, path[i]) != null
    requires j < |initial[ListOf(table, path[i])]|
    requires var list := initial[ListOf(table, path[i])];
      && (forall x :: j < x < |list| ==> list[x].0 != list[j].0)
      && !SomeNames(table, initial, path[i + 1..], list[j].0)
    ensures Finishes(table, path[0])
    ensures var entry := initial[ListOf(table, path[i])][j];
      match Enumeration(table, initial, path[0])
      case Some(names) => entry.0 in names && names[entry.0] == entry.1
      case None => false
    decreases |path|
  {
    var entry := initial[ListOf(table, path[i])][j];
    EnumerationOfChain(table, initial, path, entry.0);
    ChainGoesOn(table, path);
    EnumerationNext(table, initial, path[0]);
    DictOfList(initial[ListOf(table, path[i])], j);
    if |path| > 1 {
      ChaseNext(table, path[0]);
      assert path[1..][0] == path[1];
      if i > 0 {
        assert path[1..][i - 1] == path[i] && path[1..][i..] == path[i + 1..];
        NumberOfChain(table, initial, path[1..], i - 1, j);
      } else {
        EnumerationOfChain(table, initial, path[1..], entry.0);
      }
    }
  }
}
