/** The order the symbol table is built in, and which symbols end up in it. */
module RegistrationOrder {
  import opened Registration

  /** Every parent of the `i`-th symbol is external or earlier. */
  ghost predicate Preceded(st: Symtab, i: nat)
    requires i < |st.order| && st.order[i] in st.out
  {
    forall p :: p in st.out[st.order[i]] ==> p in External(st) || p in st.order[..i]
  }

  /** No symbol twice, exactly the registered ones, none of them postponed, each after its parents. */
  ghost predicate WellOrdered(st: Symtab) {
    && (forall i, j :: 0 <= i < j < |st.order| ==> st.order[i] != st.order[j])
    && (forall i :: 0 <= i < |st.order| ==> st.order[i] in st.out)
    && (forall i {:trigger Preceded(st, i)} :: 0 <= i < |st.order| ==> Preceded(st, i))
    && (forall s :: s in st.out ==> s in st.order && s !in st.postponed)
  }

  lemma RegisterKeepsOrder(st: Symtab, symbol: string, parents: seq<string>)
    requires WellOrdered(st) && symbol !in st.out && AllParentsExist(st, parents)
    ensures WellOrdered(Register(st, symbol, parents))
  {
    var s := Register(st, symbol, parents);
    forall i | 0 <= i < |s.order|
      ensures s.order[i] in s.out && Preceded(s, i)
    {
      if i < |st.order| {
        assert s.order[..i] == st.order[..i];
        assert st.order[i] in st.out && Preceded(st, i);
      } else {
        assert s.order[..i] == st.order;
        forall p | p in parents ensures p in External(s) || p in st.order {
          assert Known(st, p);
        }
      }
    }
  }

  lemma {:induction false} PassKeepsOrder(st: Symtab, keys: seq<string>)
    requires WellOrdered(st)
    ensures WellOrdered(PassOver(st, keys))
  {
    if keys != [] {
      var n := |keys| - 1;
      PassKeepsOrder(st, keys[..n]);
      var s := PassOver(st, keys[..n]);
      if keys[n] in s.postponed && AllParentsExist(s, s.postponed[keys[n]]) {
        RegisterKeepsOrder(s, keys[n], s.postponed[keys[n]]);
      }
    }
  }

  lemma ApplyKeepsOrder(st: Symtab, e: Event, keys: seq<string>)
    requires WellOrdered(st) && Apply(st, e, keys).Ok?
    ensures WellOrdered(Apply(st, e, keys).value)
  {
    var t := Apply(st, e, keys).value;
    if e.Symbol? && AllParentsExist(st, e.parents) {
      RegisterKeepsOrder(st, e.name, e.parents);
      PassKeepsOrder(Register(st, e.name, e.parents), keys);
    } else {
      assert t.order == st.order && t.out == st.out && External(st) <= External(t);
      forall i | 0 <= i < |t.order| ensures Preceded(t, i) {
        assert Preceded(st, i);
      }
    }
  }

  /** After every declaration, whatever the dictionary orders. */
  lemma {:induction false} RunKeepsOrder(st: Symtab, events: seq<Event>, keys: seq<seq<string>>)
    requires WellOrdered(st) && |keys| == |events| && ApplyAll(st, events, keys).Ok?
    ensures WellOrdered(ApplyAll(st, events, keys).value)
  {
    if events != [] {
      var n := |events| - 1;
      RunKeepsOrder(st, events[..n], keys[..n]);
      ApplyKeepsOrder(ApplyAll(st, events[..n], keys[..n]).value, events[n], keys[n]);
    }
  }

  // ----- well-founded symbols

  /** Everything declared so far, registered or not. */
  function Declarations(st: Symtab): map<string, seq<string>> {
    st.out + st.postponed
  }

  /** The symbols whose parents bottom out in external names within `n` steps. */
  function Stage(decls: map<string, seq<string>>, external: set<string>, n: nat): set<string> {
    if n == 0 then {} else
    var below := Stage(decls, external, n - 1);
    set s | s in decls && forall i :: 0 <= i < |decls[s]| ==> decls[s][i] in external || decls[s][i] in below
  }

  ghost predicate WellFounded(st: Symtab, symbol: string) {
    exists n: nat :: symbol in Stage(Declarations(st), External(st), n)
  }

  /** No postponed symbol has all its parents. */
  predicate Stuck(st: Symtab) {
    forall s :: s in st.postponed ==> !AllParentsExist(st, st.postponed[s])
  }

  lemma {:induction false} StageGrows(decls: map<string, seq<string>>, external: set<string>, n: nat, m: nat)
    requires n <= m
    ensures Stage(decls, external, n) <= Stage(decls, external, m)
  {
    if n > 0 {
      StageGrows(decls, external, n - 1, m - 1);
    }
  }

  lemma StageNext(decls: map<string, seq<string>>, external: set<string>, n: nat, symbol: string)
    requires symbol in decls
    requires forall p :: p in decls[symbol] ==> p in external || p in Stage(decls, external, n)
    ensures symbol in Stage(decls, external, n + 1)
  {
  }

  lemma OrderedParents(st: Symtab, i: nat, p: string)
    requires WellOrdered(st) && i < |st.order| && p in st.out[st.order[i]] && p !in External(st)
    ensures exists j :: 0 <= j < i && st.order[j] == p
  {
    assert Preceded(st, i);
  }

  lemma {:induction false} OrderedAreStaged(st: Symtab, decls: map<string, seq<string>>, external: set<string>, i: nat)
    requires WellOrdered(st) && i < |st.order| && decls == Declarations(st) && external == External(st)
    ensures st.order[i] in Stage(decls, external, i + 1)
    decreases i
  {
    var s := st.order[i];
    assert decls[s] == st.out[s];
    forall p | p in decls[s] && p !in external ensures p in Stage(decls, external, i) {
      OrderedParents(st, i, p);
      var j :| 0 <= j < i && st.order[j] == p;
      OrderedAreStaged(st, decls, external, j);
      StageGrows(decls, external, j + 1, i);
    }
    StageNext(decls, external, i, s);
  }

  /** Soundness for the code as it is: only well-founded symbols are registered. */
  lemma RegisteredAreWellFounded(st: Symtab, symbol: string)
    requires WellOrdered(st) && symbol in st.out
    ensures WellFounded(st, symbol)
  {
    var i :| 0 <= i < |st.order| && st.order[i] == symbol;
    OrderedAreStaged(st, Declarations(st), External(st), i);
  }

  lemma {:induction false} StagedAreRegistered(st: Symtab, symbol: string, n: nat)
    requires Stuck(st) && symbol in Stage(Declarations(st), External(st), n)
    ensures symbol in st.out
    decreases n
  {
    var decls := Declarations(st);
    if symbol !in st.out {
      forall i | 0 <= i < |decls[symbol]| ensures Known(st, decls[symbol][i]) {
        if decls[symbol][i] !in External(st) {
          StagedAreRegistered(st, decls[symbol][i], n - 1);
        }
      }
    }
  }

  /** When no further pass helps, the registered symbols are exactly the well-founded ones, however the
      declarations and the dictionaries were ordered. */
  lemma StuckIsExact(st: Symtab, symbol: string)
    requires WellOrdered(st)
    ensures Stuck(st) ==> (symbol in st.out <==> WellFounded(st, symbol))
  {
    if Stuck(st) {
      if symbol in st.out {
        RegisteredAreWellFounded(st, symbol);
      } else if WellFounded(st, symbol) {
        var n: nat :| symbol in Stage(Declarations(st), External(st), n);
        StagedAreRegistered(st, symbol, n);
      }
    }
  }

  // ----- passes

  lemma {:induction false} PassFrame(st: Symtab, keys: seq<string>)
    ensures var s := PassOver(st, keys);
      && s.imports == st.imports && s.rows == st.rows && s.oidParents == st.oidParents
      && Declarations(s) == Declarations(st)
      && st.out.Keys <= s.out.Keys && s.postponed.Keys <= st.postponed.Keys
      && (forall k :: k in s.out && k !in st.out ==> k in keys && k in st.postponed)
      && (forall k :: k in s.postponed ==> s.postponed[k] == st.postponed[k])
  {
    if keys != [] {
      var n := |keys| - 1;
      PassFrame(st, keys[..n]);
      assert keys == keys[..n] + [keys[n]];
    }
  }

  /** The postponed symbols that ever can be registered come after their postponed parents. */
  ghost predicate ParentsFirst(st: Symtab, keys: seq<string>) {
    forall i, p | 0 <= i < |keys| && WellFounded(st, keys[i]) &&
                  keys[i] in st.postponed && p in st.postponed[keys[i]] ::
      Known(st, p) || p in keys[..i]
  }

  lemma WellFoundedParents(st: Symtab, symbol: string, p: string)
    requires WellFounded(st, symbol) && symbol in st.postponed && p in st.postponed[symbol]
    ensures p in External(st) || WellFounded(st, p)
  {
    var n: nat :| symbol in Stage(Declarations(st), External(st), n);
    var ps := Declarations(st)[symbol];
    var i :| 0 <= i < |ps| && ps[i] == p;
    assert ps[i] in External(st) || ps[i] in Stage(Declarations(st), External(st), n - 1);
  }

  /** When its turn comes, a symbol that can be registered has its parents. */
  lemma TurnHasParents(st: Symtab, s: Symtab, keys: seq<string>, i: nat)
    requires Enumerates(keys, st.postponed) && ParentsFirst(st, keys) && i < |keys| && WellFounded(st, keys[i])
    requires External(s) == External(st) && st.out.Keys <= s.out.Keys
    requires forall k :: k in keys[..i] && WellFounded(st, k) ==> k in s.out
    ensures AllParentsExist(s, st.postponed[keys[i]])
  {
    var ps := st.postponed[keys[i]];
    forall j | 0 <= j < |ps| ensures Known(s, ps[j]) {
      assert ps[j] in st.postponed[keys[i]];
      WellFoundedParents(st, keys[i], ps[j]);
      assert Known(st, ps[j]) || ps[j] in keys[..i];
    }
  }

  lemma OrderedPassStep(st: Symtab, keys: seq<string>, i: nat)
    requires Enumerates(keys, st.postponed) && ParentsFirst(st, keys) && i < |keys| && WellFounded(st, keys[i])
    requires forall k :: k in keys[..i] && WellFounded(st, k) ==> k in PassOver(st, keys[..i]).out
    ensures keys[i] in PassOver(st, keys[..i + 1]).out
  {
    var s := PassOver(st, keys[..i]);
    PassFrame(st, keys[..i]);
    PassNext(st, keys, i);
    if keys[i] !in s.out {
      assert keys[i] in Declarations(st) && keys[i] in Declarations(s);
      TurnHasParents(st, s, keys, i);
    }
  }

  lemma {:induction false} OrderedPassRegisters(st: Symtab, keys: seq<string>, i: nat)
    requires Enumerates(keys, st.postponed) && ParentsFirst(st, keys) && i <= |keys|
    ensures forall k :: k in keys[..i] && WellFounded(st, k) ==> k in PassOver(st, keys[..i]).out
  {
    if i > 0 {
      OrderedPassRegisters(st, keys, i - 1);
      if WellFounded(st, keys[i - 1]) {
        OrderedPassStep(st, keys, i - 1);
      }
      PassGrows(st, keys, i - 1);
      assert keys[..i] == keys[..i - 1] + [keys[i - 1]];
    }
  }

  lemma PassGrows(st: Symtab, keys: seq<string>, i: nat)
    requires i < |keys|
    ensures PassOver(st, keys[..i]).out.Keys <= PassOver(st, keys[..i + 1]).out.Keys
  {
    PassNext(st, keys, i);
  }

  lemma PassNext(st: Symtab, keys: seq<string>, i: nat)
    requires i < |keys|
    ensures PassOver(st, keys[..i + 1]) ==
      var s := PassOver(st, keys[..i]);
      if keys[i] in s.postponed && AllParentsExist(s, s.postponed[keys[i]])
      then Register(s, keys[i], s.postponed[keys[i]]) else s
  {
    assert keys[..i + 1][..i] == keys[..i];
  }

  lemma RegisteredHadParents(st: Symtab, keys: seq<string>, i: nat)
    requires st.out.Keys !! st.postponed.Keys && Enumerates(keys, st.postponed) && i < |keys|
    requires keys[i] in PassOver(st, keys).out
    ensures forall p :: p in st.postponed[keys[i]] ==> Known(st, p) || p in keys[..i]
  {
    assert keys[..|keys|] == keys;
    RegisteredAtItsTurn(st, keys, i, |keys|);
    PassFrame(st, keys[..i]);
    PassNext(st, keys, i);
    var s := PassOver(st, keys[..i]);
    assert keys[i] in st.postponed && keys[i] !in keys[..i] && keys[i] !in s.out;
    var ps := s.postponed[keys[i]];
    forall p | p in ps ensures Known(st, p) || p in keys[..i] {
      var k :| 0 <= k < |ps| && ps[k] == p;
      assert Known(s, ps[k]);
    }
  }

  lemma PassAddsOne(st: Symtab, keys: seq<string>, m: nat)
    requires m < |keys|
    ensures PassOver(st, keys[..m + 1]).out.Keys <= PassOver(st, keys[..m]).out.Keys + {keys[m]}
  {
    PassNext(st, keys, m);
  }

  lemma {:induction false} RegisteredAtItsTurn(st: Symtab, keys: seq<string>, i: nat, m: nat)
    requires forall j :: i < j < |keys| ==> keys[j] != keys[i]
    requires i < m <= |keys| && keys[i] in PassOver(st, keys[..m]).out
    ensures keys[i] in PassOver(st, keys[..i + 1]).out
    decreases m
  {
    if m > i + 1 {
      PassAddsOne(st, keys, m - 1);
      RegisteredAtItsTurn(st, keys, i, m - 1);
    }
  }

  lemma PassRegistersWellFounded(st: Symtab, keys: seq<string>)
    requires WellOrdered(st)
    ensures forall s :: s in PassOver(st, keys).out ==> WellFounded(st, s)
  {
    var t := PassOver(st, keys);
    PassFrame(st, keys);
    PassKeepsOrder(st, keys);
    assert External(t) == External(st);
    forall s | s in t.out ensures WellFounded(st, s) {
      RegisteredAreWellFounded(t, s);
    }
  }

  lemma OrderedPassIsComplete(st: Symtab, keys: seq<string>)
    requires Enumerates(keys, st.postponed) && ParentsFirst(st, keys)
    ensures forall s :: WellFounded(st, s) ==> s in PassOver(st, keys).out
  {
    PassFrame(st, keys);
    OrderedPassRegisters(st, keys, |keys|);
    assert keys[..|keys|] == keys;
    forall s | WellFounded(st, s) ensures s in PassOver(st, keys).out {
      WellFoundedIsDeclared(st, s);
    }
  }

  lemma CompletePassWasOrdered(st: Symtab, keys: seq<string>)
    requires st.out.Keys !! st.postponed.Keys && Enumerates(keys, st.postponed)
    requires forall s :: WellFounded(st, s) ==> s in PassOver(st, keys).out
    ensures ParentsFirst(st, keys)
  {
    forall i, p | 0 <= i < |keys| && WellFounded(st, keys[i]) && keys[i] in st.postponed && p in st.postponed[keys[i]]
      ensures Known(st, p) || p in keys[..i]
    {
      RegisteredHadParents(st, keys, i);
    }
  }

  /** One pass, as the code makes it, registers well-founded symbols only, and all of them exactly when
      the dictionary order lists them after their postponed parents. */
  lemma SinglePassIsComplete(st: Symtab, keys: seq<string>)
    requires WellOrdered(st) && Enumerates(keys, st.postponed)
    ensures forall s :: s in PassOver(st, keys).out ==> WellFounded(st, s)
    ensures (forall s :: WellFounded(st, s) ==> s in PassOver(st, keys).out) <==> ParentsFirst(st, keys)
  {
    PassRegistersWellFounded(st, keys);
    if ParentsFirst(st, keys) {
      OrderedPassIsComplete(st, keys);
    } else if forall s :: WellFounded(st, s) ==> s in PassOver(st, keys).out {
      CompletePassWasOrdered(st, keys);
    }
  }

  lemma WellFoundedIsDeclared(st: Symtab, symbol: string)
    requires WellFounded(st, symbol)
    ensures symbol in st.out || symbol in st.postponed
  {
  }

  /** Passes one after the other, each with its own dictionary order. */
  function Passes(st: Symtab, orders: seq<seq<string>>): Symtab {
    if orders == [] then st else
    var n := |orders| - 1;
    PassOver(Passes(st, orders[..n]), orders[n])
  }

  ghost predicate PassOrders(st: Symtab, orders: seq<seq<string>>) {
    forall i :: 0 <= i < |orders| ==> Enumerates(orders[i], Passes(st, orders[..i]).postponed)
  }

  lemma {:induction false} PassThroughRegisters(st: Symtab, keys: seq<string>, i: nat)
    requires i < |keys| && keys[i] in st.postponed && AllParentsExist(st, st.postponed[keys[i]])
    ensures keys[i] in PassOver(st, keys).out
  {
    var n := |keys| - 1;
    PassFrame(st, keys[..n]);
    var s := PassOver(st, keys[..n]);
    if i < n {
      PassThroughRegisters(st, keys[..n], i);
    } else if keys[n] !in s.out {
      assert keys[n] in Declarations(s);
      var ps := s.postponed[keys[n]];
      assert forall j :: 0 <= j < |ps| ==> Known(st, ps[j]) ==> Known(s, ps[j]);
      assert AllParentsExist(s, ps);
    }
  }

  lemma PassProgress(st: Symtab, keys: seq<string>)
    requires WellOrdered(st) && Enumerates(keys, st.postponed) && !Stuck(st)
    ensures |PassOver(st, keys).postponed| < |st.postponed|
  {
    var s :| s in st.postponed && AllParentsExist(st, st.postponed[s]);
    var i :| 0 <= i < |keys| && keys[i] == s;
    PassThroughRegisters(st, keys, i);
    PassFrame(st, keys);
    PassKeepsOrder(st, keys);
    var t := PassOver(st, keys);
    assert t.postponed.Keys <= st.postponed.Keys - {s};
    Smaller(t.postponed, st.postponed, s);
  }

  lemma Smaller(a: map<string, seq<string>>, b: map<string, seq<string>>, s: string)
    requires a.Keys <= b.Keys - {s} && s in b
    ensures |a| < |b|
  {
    assert |a.Keys| == |a| && |b.Keys| == |b|;
    Subset(a.Keys, b.Keys - {s});
  }

  lemma {:induction false} Subset<T>(a: set<T>, b: set<T>)
    requires a <= b
    ensures |a| <= |b|
  {
    if a != {} {
      var x :| x in a;
      Subset(a - {x}, b - {x});
    }
  }

  lemma {:induction false} StuckStays(st: Symtab, keys: seq<string>)
    requires Stuck(st)
    ensures PassOver(st, keys) == st
  {
    if keys != [] {
      StuckStays(st, keys[..|keys| - 1]);
    }
  }

  lemma RegisteredAtOnce(st: Symtab, symbol: string, parents: seq<string>, keys: seq<string>)
    requires st.postponed == map[] && symbol !in st.out && AllParentsExist(st, parents)
    ensures Apply(st, Symbol(symbol, parents), keys) == Ok(Register(st, symbol, parents))
    ensures Register(st, symbol, parents).postponed == map[]
  {
    StuckStays(Register(st, symbol, parents), keys);
  }

  /** Iterated as often as there are postponed symbols, in any dictionary orders, the pass registers
      exactly the well-founded symbols; a single pass registers a subset of them. */
  lemma {:induction false} IteratedPasses(st: Symtab, orders: seq<seq<string>>)
    requires WellOrdered(st) && PassOrders(st, orders)
    ensures var t := Passes(st, orders);
      && WellOrdered(t) && Declarations(t) == Declarations(st) && External(t) == External(st)
      && (Stuck(t) || |t.postponed| + |orders| <= |st.postponed|)
    ensures |orders| > |st.postponed| ==>
      forall s :: s in Passes(st, orders).out <==> WellFounded(st, s)
  {
    var t := Passes(st, orders);
    if orders != [] {
      var n := |orders| - 1;
      forall i | 0 <= i < n ensures Enumerates(orders[..n][i], Passes(st, orders[..n][..i]).postponed) {
        assert orders[..n][..i] == orders[..i];
      }
      IteratedPasses(st, orders[..n]);
      var s := Passes(st, orders[..n]);
      PassFrame(s, orders[n]);
      PassKeepsOrder(s, orders[n]);
      if Stuck(s) {
        StuckStays(s, orders[n]);
      } else {
        PassProgress(s, orders[n]);
      }
    }
    if |orders| > |st.postponed| {
      forall s ensures s in t.out <==> WellFounded(st, s) {
        StuckIsExact(t, s);
      }
    }
  }

  // ----- the whole module

  /** An accepted module has registered every symbol it declares, in parent order. */
  lemma AcceptedModule(imports: set<string>, events: seq<Event>, keys: seq<seq<string>>)
    requires |keys| == |events| && GenCode(imports, events, keys).Ok?
    ensures var st := GenCode(imports, events, keys).value;
      && WellOrdered(st) && st.postponed == map[] && st.imports == imports
      && (forall e :: e in events && e.Symbol? ==> e.name in st.out && st.out[e.name] == e.parents)
      && (forall e :: e in events && e.Row? ==> e.name in st.rows)
      && (forall e :: e in events && e.OidParent? ==> e.name in st.out || e.name in imports)
      && (forall s :: s in st.out ==> exists e :: e in events && e == Symbol(s, st.out[s]))
  {
    var start := Empty(imports);
    RunKeepsOrder(start, events, keys);
    RunDeclares(start, events, keys);
    var st := GenCode(imports, events, keys).value;
    assert Declarations(st) == st.out;
    assert forall e :: e in events && e.Row? ==> e.name in RowsOf(events);
    assert forall e :: e in events && e.OidParent? ==> e.name in OidParentsOf(events);
  }

  /** Two runs over the same declarations in any order, each followed by passes until none helps, register
      the same symbols with the same parents. */
  lemma OrderDoesNotMatter(imports: set<string>, events: seq<Event>, others: seq<Event>,
                           keys: seq<seq<string>>, otherKeys: seq<seq<string>>,
                           orders: seq<seq<string>>, otherOrders: seq<seq<string>>)
    requires |keys| == |events| && |otherKeys| == |others| && (forall e :: e in events <==> e in others)
    requires ApplyAll(Empty(imports), events, keys).Ok? && ApplyAll(Empty(imports), others, otherKeys).Ok?
    requires var s := ApplyAll(Empty(imports), events, keys).value; PassOrders(s, orders) && Stuck(Passes(s, orders))
    requires var s := ApplyAll(Empty(imports), others, otherKeys).value;
      PassOrders(s, otherOrders) && Stuck(Passes(s, otherOrders))
    ensures Passes(ApplyAll(Empty(imports), events, keys).value, orders).out ==
      Passes(ApplyAll(Empty(imports), others, otherKeys).value, otherOrders).out
  {
    var s := ApplyAll(Empty(imports), events, keys).value;
    var t := ApplyAll(Empty(imports), others, otherKeys).value;
    RunKeepsOrder(Empty(imports), events, keys);
    RunKeepsOrder(Empty(imports), others, otherKeys);
    RunDeclares(Empty(imports), events, keys);
    RunDeclares(Empty(imports), others, otherKeys);
    SameDeclarations(imports, events, others, s, t);
    IteratedPasses(s, orders);
    IteratedPasses(t, otherOrders);
    StuckRegistersTheSame(Passes(s, orders), Passes(t, otherOrders));
  }

  lemma SameDeclarations(imports: set<string>, events: seq<Event>, others: seq<Event>, s: Symtab, t: Symtab)
    requires forall e :: e in events <==> e in others
    requires Declares(Empty(imports), events, s) && Declares(Empty(imports), others, t)
    ensures Declarations(s) == Declarations(t) && External(s) == External(t)
  {
    assert RowsOf(events) == RowsOf(others);
    assert Declarations(Empty(imports)) == map[];
    forall x | x in Declarations(s) ensures x in Declarations(t) && Declarations(t)[x] == Declarations(s)[x] {
      assert Symbol(x, Declarations(s)[x]) in others;
    }
    forall x | x in Declarations(t) ensures x in Declarations(s) {
      assert Symbol(x, Declarations(t)[x]) in events;
    }
  }

  lemma StuckRegistersTheSame(s: Symtab, t: Symtab)
    requires WellOrdered(s) && WellOrdered(t) && Stuck(s) && Stuck(t)
    requires Declarations(s) == Declarations(t) && External(s) == External(t)
    ensures s.out == t.out
  {
    forall x ensures x in s.out <==> x in t.out {
      StuckIsExact(s, x);
      StuckIsExact(t, x);
    }
    assert forall x :: x in s.out ==> x !in s.postponed && Declarations(s)[x] == s.out[x];
    assert forall x :: x in t.out ==> x !in t.postponed && Declarations(t)[x] == t.out[x];
  }

  function RowsOf(events: seq<Event>): set<string> {
    set e | e in events && e.Row? :: e.name
  }

  function OidParentsOf(events: seq<Event>): set<string> {
    set e | e in events && e.OidParent? :: e.name
  }

  /** `t` is `st` with exactly the declarations, rows and identifier parents of `events` added. */
  ghost predicate Declares(st: Symtab, events: seq<Event>, t: Symtab) {
    && t.imports == st.imports
    && t.rows == st.rows + RowsOf(events) && t.oidParents == st.oidParents + OidParentsOf(events)
    && (forall e :: e in events && e.Symbol? ==> e.name in Declarations(t) && Declarations(t)[e.name] == e.parents)
    && (forall s :: s in Declarations(t) ==>
      s in Declarations(st) || exists e :: e in events && e == Symbol(s, Declarations(t)[s]))
    && (forall s :: s in Declarations(st) ==> s in Declarations(t) && Declarations(t)[s] == Declarations(st)[s])
  }

  lemma NamesNext(events: seq<Event>, e: Event)
    ensures RowsOf(events + [e]) == RowsOf(events) + if e.Row? then {e.name} else {}
    ensures OidParentsOf(events + [e]) == OidParentsOf(events) + if e.OidParent? then {e.name} else {}
  {
    assert forall x :: x in events + [e] <==> x in events || x == e;
  }

  lemma DeclaresNext(st: Symtab, events: seq<Event>, s: Symtab, e: Event, t: Symtab)
    requires Declares(st, events, s) && t.imports == s.imports
    requires t.rows == (if e.Row? then s.rows + {e.name} else s.rows)
    requires t.oidParents == (if e.OidParent? then s.oidParents + {e.name} else s.oidParents)
    requires e.Symbol? ==> e.name !in Declarations(s)
    requires Declarations(t) == if e.Symbol? then Declarations(s)[e.name := e.parents] else Declarations(s)
    ensures Declares(st, events + [e], t)
  {
    assert forall x :: x in events + [e] <==> x in events || x == e;
    NamesNext(events, e);
    forall x | x in Declarations(t)
      ensures x in Declarations(st) || exists y :: y in events + [e] && y == Symbol(x, Declarations(t)[x])
    {
      if e.Symbol? && x == e.name {
        assert e == Symbol(x, Declarations(t)[x]);
      }
    }
  }

  lemma {:induction false} RunDeclares(st: Symtab, events: seq<Event>, keys: seq<seq<string>>)
    requires WellOrdered(st) && |keys| == |events| && ApplyAll(st, events, keys).Ok?
    ensures Declares(st, events, ApplyAll(st, events, keys).value)
  {
    if events != [] {
      var n := |events| - 1;
      RunDeclares(st, events[..n], keys[..n]);
      RunKeepsOrder(st, events[..n], keys[..n]);
      var s := ApplyAll(st, events[..n], keys[..n]).value;
      ApplyDeclares(s, events[n], keys[n]);
      DeclaresNext(st, events[..n], s, events[n], ApplyAll(st, events, keys).value);
      assert events == events[..n] + [events[n]];
    }
  }

  lemma ApplyDeclares(st: Symtab, e: Event, keys: seq<string>)
    requires WellOrdered(st) && Apply(st, e, keys).Ok?
    ensures var t := Apply(st, e, keys).value;
      && t.imports == st.imports
      && t.rows == (if e.Row? then st.rows + {e.name} else st.rows)
      && t.oidParents == (if e.OidParent? then st.oidParents + {e.name} else st.oidParents)
      && (e.Symbol? ==> e.name !in Declarations(st))
      && Declarations(t) == if e.Symbol? then Declarations(st)[e.name := e.parents] else Declarations(st)
  {
    if e.Symbol? {
      RegisterDeclares(st, e.name, e.parents);
      if AllParentsExist(st, e.parents) {
        RegisterKeepsOrder(st, e.name, e.parents);
        PassFrame(Register(st, e.name, e.parents), keys);
      }
    }
  }

  lemma RegisterDeclares(st: Symtab, symbol: string, parents: seq<string>)
    requires !Declared(st, symbol)
    ensures Declarations(Register(st, symbol, parents)) == Declarations(st)[symbol := parents]
    ensures Declarations(st.(postponed := st.postponed[symbol := parents])) == Declarations(st)[symbol := parents]
  {
  }

  /** The chain c ::= b, b ::= a, a ::= base after its first two declarations. */
  lemma ForwardChainWaits(imports: set<string>, a: string, b: string, c: string)
    requires a != b && b != c && a != c && {a, b, c} !! External(Empty(imports))
    ensures ApplyAll(Empty(imports), [Symbol(c, [b]), Symbol(b, [a])], [[], []]) ==
      Ok(Empty(imports).(postponed := map[c := [b], b := [a]]))
  {
    var start, first, second := Empty(imports), Symbol(c, [b]), Symbol(b, [a]);
    var s1 := start.(postponed := map[c := [b]]);
    assert !Known(start, [b][0]) && !Known(s1, [a][0]);
    var none: seq<seq<string>> := [[], []];
    assert [first, second][..1] == [first] && none[..1] == [[]] && [first][..0] == [] && none[..1][..0] == [];
    assert ApplyAll(start, [], []) == Ok(start);
    assert ApplyAll(start, [first], [[]]) == Apply(start, first, []);
    assert map[c := [b]][b := [a]] == map[c := [b], b := [a]];
  }

  /** When the last link of the chain arrives, the single pass it triggers registers both waiting
      symbols or only b, depending on which the dictionary gives first. */
  lemma ForwardChainPass(imports: set<string>, a: string, b: string, c: string, base: string)
    requires a != b && b != c && a != c && {a, b, c} !! External(Empty(imports)) && base in BASE_TYPES
    ensures
      var waiting := Empty(imports).(postponed := map[c := [b], b := [a]]);
      && RegSym(waiting, a, [base], [b, c]).Ok? && RegSym(waiting, a, [base], [c, b]).Ok?
      && RegSym(waiting, a, [base], [b, c]).value.postponed == map[] &&
        RegSym(waiting, a, [base], [b, c]).value.oidParents == {}
      && RegSym(waiting, a, [base], [c, b]).value.postponed == map[c := [b]]
  {
    var waiting := Empty(imports).(postponed := map[c := [b], b := [a]]);
    assert Known(waiting, base);
    var s := Register(waiting, a, [base]);
    assert s.postponed == map[c := [b], b := [a]];
    assert !Known(s, [b][0]) && Known(s, a);
    PassTwo(s, b, c);
    PassTwo(s, c, b);
    assert map[c := [b], b := [a]] - {b} == map[c := [b]];
    assert map[c := [b]] - {c} == map[];
  }

  /** The same declarations are accepted or refused by the dictionary order alone, although every
      symbol of the chain is well-founded. */
  lemma ForwardChain(imports: set<string>, a: string, b: string, c: string, base: string)
    requires a != b && b != c && a != c && {a, b, c} !! External(Empty(imports)) && base in BASE_TYPES
    ensures var chain := [Symbol(c, [b]), Symbol(b, [a]), Symbol(a, [base])];
      && GenCode(imports, chain, [[], [], [b, c]]).Ok?
      && GenCode(imports, chain, [[], [], [c, b]]) == UnknownParents
  {
    var chain := [Symbol(c, [b]), Symbol(b, [a]), Symbol(a, [base])];
    ForwardChainWaits(imports, a, b, c);
    ForwardChainPass(imports, a, b, c, base);
    forall last: seq<string>
      ensures ApplyAll(Empty(imports), chain, [[], [], last]) ==
        RegSym(Empty(imports).(postponed := map[c := [b], b := [a]]), a, [base], last)
    {
      assert chain[..2] == [Symbol(c, [b]), Symbol(b, [a])] && [[], [], last][..2] == [[], []];
    }
    assert c in map[c := [b]];
  }

  lemma PassTwo(st: Symtab, x: string, y: string)
    ensures PassOver(st, [x, y]) ==
      var s :=
        if x in st.postponed && AllParentsExist(st, st.postponed[x]) then Register(st, x, st.postponed[x]) else st;
      if y in s.postponed && AllParentsExist(s, s.postponed[y]) then Register(s, y, s.postponed[y]) else s
  {
    assert [x, y][..1] == [x] && [x][..0] == [];
    assert PassOver(st, []) == st;
  }
}
