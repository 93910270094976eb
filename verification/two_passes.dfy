/** The symbol table pass and the code generation pass over the same declarations. */
module TwoPasses {
  import opened Words
  import opened Pigeonhole
  import opened Registration
  import opened RegistrationOrder

  /** A name or a number in an object identifier. */
  datatype OidItem = Named(name: string) | Numbered(n: nat)

  /** A table of rows, a name that is a row or a type, or a type. */
  datatype Syntax = ConceptualTable(row: string) | RowOrType(name: string) | Simple(name: string)

  /** What the passes see of a declaration. `smiv1Indexes` is the number of index entries that are SMIv1
      types; a type without syntax is a SEQUENCE. */
  datatype Declaration =
    | Clause(name: string, oid: seq<OidItem>)
    | ObjectType(name: string, oid: seq<OidItem>, syntax: Syntax, augments: Option<string>, smiv1Indexes: nat)
    | TypeDeclaration(name: string, typeSyntax: Option<Syntax>)

  /** The type a syntax stands for when `rows` are the rows met so far. */
  function TypeName(rows: set<string>, syntax: Syntax): string {
    match syntax
    case ConceptualTable(_) => "MibTable"
    case RowOrType(name) => if name in rows then "MibTableRow" else name
    case Simple(name) => name
  }

  /** The row a syntax adds; its name is looked up first, as the name of a row or a type. */
  function RowEvents(rows: set<string>, syntax: Syntax): seq<Event> {
    if syntax.ConceptualTable? then [Row(TypeName(rows, RowOrType(syntax.row)))] else []
  }

  function SyntaxOf(d: Declaration): Option<Syntax> {
    match d
    case Clause(_, _) => None
    case ObjectType(_, _, syntax, _, _) => Some(syntax)
    case TypeDeclaration(_, syntax) => syntax
  }

  /** The rows met in some declarations. */
  function RowsAfter(ds: seq<Declaration>): set<string> {
    if ds == [] then {} else
    var n := |ds| - 1;
    var rows, syntax := RowsAfter(ds[..n]), SyntaxOf(ds[n]);
    if syntax.Some? && syntax.value.ConceptualTable? then rows + {TypeName(rows, RowOrType(syntax.value.row))} else rows
  }

  function FakeName(i: nat): string {
    "pysmiFakeCol" + Decimal(i)
  }

  function FakeNames(fakeidx: nat, n: nat): seq<string> {
    if n == 0 then [] else FakeNames(fakeidx, n - 1) + [FakeName(fakeidx + n - 1)]
  }

  function FakesUsed(d: Declaration): nat {
    if d.ObjectType? then d.smiv1Indexes else 0
  }

  /** The counter of fake columns after some declarations. */
  function CounterAfter(fakeidx: nat, ds: seq<Declaration>): nat {
    if ds == [] then fakeidx else CounterAfter(fakeidx, ds[..|ds| - 1]) + FakesUsed(ds[|ds| - 1])
  }

  function FakeEvents(names: seq<string>): seq<Event> {
    seq(|names|, i requires 0 <= i < |names| => Symbol(names[i], []))
  }

  function OidNames(oid: seq<OidItem>): seq<string> {
    if oid == [] then [] else
    var n := |oid| - 1;
    OidNames(oid[..n]) + if oid[n].Named? then [oid[n].name] else []
  }

  function OidEvents(names: seq<string>): seq<Event> {
    seq(|names|, i requires 0 <= i < |names| => OidParent(names[i]))
  }

  function Parents(rows: set<string>, syntax: Syntax, augments: Option<string>): seq<string> {
    [TypeName(rows, syntax)] + if augments.Some? then [augments.value] else []
  }

  /** The symbol table pass: the subparts, among them the row and the identifier, the fake columns, then
      the object. */
  function EventsOf(rows: set<string>, fakeidx: nat, d: Declaration): seq<Event> {
    match d
    case Clause(name, oid) => OidEvents(OidNames(oid)) + [Symbol(name, [])]
    case ObjectType(name, oid, syntax, augments, n) =>
      RowEvents(rows, syntax) + OidEvents(OidNames(oid))
      + FakeEvents(FakeNames(fakeidx, n))
      + [Symbol(name, Parents(rows, syntax, augments))]
    case TypeDeclaration(name, syntax) =>
      if syntax.Some? then RowEvents(rows, syntax.value) + [Symbol(name, Parents(rows, syntax.value, None))] else []
  }

  function AllEvents(fakeidx: nat, ds: seq<Declaration>): seq<Event> {
    if ds == [] then [] else
    var n := |ds| - 1;
    AllEvents(fakeidx, ds[..n]) + EventsOf(RowsAfter(ds[..n]), CounterAfter(fakeidx, ds[..n]), ds[n])
  }

  lemma EventsNext(fakeidx: nat, ds: seq<Declaration>, d: Declaration)
    ensures AllEvents(fakeidx, ds + [d]) ==
      AllEvents(fakeidx, ds) + EventsOf(RowsAfter(ds), CounterAfter(fakeidx, ds), d)
  {
    assert (ds + [d])[..|ds|] == ds;
  }

  lemma TypeEvents(rows: set<string>, fakeidx: nat, name: string, parent: string)
    ensures EventsOf(rows, fakeidx, TypeDeclaration(name, Some(Simple(parent)))) == [Symbol(name, [parent])]
  {
    assert Parents(rows, Simple(parent), None) == [parent];
  }

  /** The code generation pass: the object, then its fake columns. */
  function Generated(fakeidx: nat, d: Declaration): seq<string> {
    match d
    case Clause(name, _) => [name]
    case ObjectType(name, _, _, _, n) => [name] + FakeNames(fakeidx, n)
    case TypeDeclaration(name, syntax) => if syntax.Some? then [name] else []
  }

  function AllGenerated(fakeidx: nat, ds: seq<Declaration>): seq<string> {
    if ds == [] then [] else
    var n := |ds| - 1;
    AllGenerated(fakeidx, ds[..n]) + Generated(CounterAfter(fakeidx, ds[..n]), ds[n])
  }

  class PySnmpCodeGen {
    const importMap: set<string>
    var presentedSyms: set<string>
    var out: set<string>
    var fakeidx: nat

    constructor (importMap: set<string>, fakeidx: nat)
      ensures this.importMap == importMap && presentedSyms == importMap && out == {} && this.fakeidx == fakeidx
    {
      this.importMap, presentedSyms, out, this.fakeidx := importMap, importMap, {}, fakeidx;
    }

    predicate Valid()
      reads this
    {
      presentedSyms == importMap + out
    }

    method RegSym(symbol: string) returns (ok: bool)
      requires Valid()
      modifies this`presentedSyms, this`out
      ensures Valid()
      ensures ok <==> !(symbol in old(out) && symbol !in importMap)
      ensures out == if ok then old(out) + {symbol} else old(out)
    {
      if symbol in presentedSyms && symbol !in importMap {
        return false;
      }
      presentedSyms := presentedSyms + {symbol};
      out := out + {symbol};
      ok := true;
    }

    /** The index part takes its numbers before the object is registered. */
    method RegisterDeclaration(d: Declaration) returns (ok: bool)
      requires Valid()
      modifies this
      ensures Valid() && fakeidx == old(fakeidx) + FakesUsed(d)
      ensures AllNew(Generated(old(fakeidx), d), old(out)) ==> ok
      ensures ok ==> out == old(out) + set s | s in Generated(old(fakeidx), d)
    {
      var names := [];
      match d {
        case Clause(name, _) => names := [name];
        case ObjectType(name, _, _, _, n) =>
          var fakeSyms := [];
          ghost var first := fakeidx;
          for i := 0 to n
            invariant fakeidx == first + i && fakeSyms == FakeNames(first, i)
            invariant Valid() && out == old(out)
          {
            fakeSyms := fakeSyms + [FakeName(fakeidx)];
            fakeidx := fakeidx + 1;
          }
          names := [name] + fakeSyms;
        case TypeDeclaration(name, syntax) =>
          if syntax.Some? {
            names := [name];
          }
      }
      ok := true;
      for i := 0 to |names|
        invariant ok && Valid() && fakeidx == old(fakeidx) + FakesUsed(d)
        invariant out == old(out) + set s | s in names[..i]
      {
        assert names[..i + 1] == names[..i] + [names[i]];
        ghost var before := out;
        ok := RegSym(names[i]);
        if !ok {
          assert names[i] in before;
          return;
        }
      }
      assert names[..|names|] == names;
    }
  }

  /** None of `names` is in `known` or repeated. */
  ghost predicate AllNew(names: seq<string>, known: set<string>) {
    forall i :: 0 <= i < |names| ==> names[i] !in known && names[i] !in names[..i]
  }

  method RegisterDeclarations(g: PySnmpCodeGen, ds: seq<Declaration>) returns (ok: bool)
    requires g.Valid() && g.out == {}
    modifies g
    ensures NoRepeats(AllGenerated(old(g.fakeidx), ds)) ==> ok
    ensures ok ==> g.out == set s | s in AllGenerated(old(g.fakeidx), ds)
  {
    ghost var first := g.fakeidx;
    ok := true;
    for i := 0 to |ds|
      invariant ok && g.Valid() && g.fakeidx == CounterAfter(first, ds[..i])
      invariant g.out == set s | s in AllGenerated(first, ds[..i])
    {
      assert ds[..i + 1][..i] == ds[..i];
      ghost var before, more := AllGenerated(first, ds[..i]), Generated(g.fakeidx, ds[i]);
      if NoRepeats(AllGenerated(first, ds)) {
        GeneratedIsPrefix(first, ds, i + 1);
        NewNames(before, more);
      }
      ok := g.RegisterDeclaration(ds[i]);
      if !ok {
        return;
      }
    }
    assert ds[..|ds|] == ds;
  }

  lemma {:induction false} GeneratedIsPrefix(fakeidx: nat, ds: seq<Declaration>, i: nat)
    requires i <= |ds|
    ensures AllGenerated(fakeidx, ds[..i]) <= AllGenerated(fakeidx, ds)
  {
    if i == |ds| {
      assert ds[..i] == ds;
    } else {
      assert ds[..|ds| - 1][..i] == ds[..i];
      GeneratedIsPrefix(fakeidx, ds[..|ds| - 1], i);
    }
  }

  lemma NewNames(before: seq<string>, more: seq<string>)
    requires NoRepeats(before + more)
    ensures AllNew(more, set s | s in before)
  {
    var all := before + more;
    forall i | 0 <= i < |more| ensures more[i] !in before && more[i] !in more[..i] {
      assert all[|before| + i] == more[i];
      assert forall j :: 0 <= j < |before| ==> all[j] == before[j];
      assert forall j :: 0 <= j < i ==> all[|before| + j] == more[j];
    }
  }

  // ----- agreement

  function SymbolNames(events: seq<Event>): seq<string> {
    if events == [] then [] else
    var n := |events| - 1;
    SymbolNames(events[..n]) + if events[n].Symbol? then [events[n].name] else []
  }

  lemma {:induction false} SymbolNamesAppend(a: seq<Event>, b: seq<Event>)
    ensures SymbolNames(a + b) == SymbolNames(a) + SymbolNames(b)
  {
    if b == [] {
      assert a + b == a;
    } else {
      assert (a + b)[..|a + b| - 1] == a + b[..|b| - 1];
      SymbolNamesAppend(a, b[..|b| - 1]);
    }
  }

  lemma {:induction false} SymbolNamesOfFakes(names: seq<string>)
    ensures SymbolNames(FakeEvents(names)) == names
  {
    if names != [] {
      var n := |names| - 1;
      assert FakeEvents(names)[..n] == FakeEvents(names[..n]);
      SymbolNamesOfFakes(names[..n]);
    }
  }

  lemma {:induction false} SymbolNamesOfOids(names: seq<string>)
    ensures SymbolNames(OidEvents(names)) == []
  {
    if names != [] {
      var n := |names| - 1;
      assert OidEvents(names)[..n] == OidEvents(names[..n]);
      SymbolNamesOfOids(names[..n]);
    }
  }

  lemma ObjectEventsName(rows: set<string>, fakeidx: nat, d: Declaration)
    requires d.ObjectType?
    ensures SymbolNames(EventsOf(rows, fakeidx, d)) == FakeNames(fakeidx, d.smiv1Indexes) + [d.name]
  {
    var a, o := RowEvents(rows, d.syntax), OidEvents(OidNames(d.oid));
    var b := FakeEvents(FakeNames(fakeidx, d.smiv1Indexes));
    var last := [Symbol(d.name, Parents(rows, d.syntax, d.augments))];
    assert EventsOf(rows, fakeidx, d) == a + o + b + last;
    SymbolNamesOfFour(a, o, b, last);
    NoSymbol(a);
    SymbolNamesOfOids(OidNames(d.oid));
    SymbolNamesOfFakes(FakeNames(fakeidx, d.smiv1Indexes));
    OneSymbol(d.name, Parents(rows, d.syntax, d.augments));
  }

  lemma SymbolNamesOfFour(a: seq<Event>, b: seq<Event>, c: seq<Event>, d: seq<Event>)
    ensures SymbolNames(a + b + c + d) == SymbolNames(a) + SymbolNames(b) + SymbolNames(c) + SymbolNames(d)
  {
    SymbolNamesAppend(a + b + c, d);
    SymbolNamesAppend(a + b, c);
    SymbolNamesAppend(a, b);
  }

  lemma NoSymbol(events: seq<Event>)
    requires |events| <= 1 && forall i :: 0 <= i < |events| ==> !events[i].Symbol?
    ensures SymbolNames(events) == []
  {
  }

  lemma EventsNameGenerated(rows: set<string>, fakeidx: nat, d: Declaration)
    ensures multiset(SymbolNames(EventsOf(rows, fakeidx, d))) == multiset(Generated(fakeidx, d))
  {
    match d
    case Clause(name, oid) =>
      SymbolNamesOfOids(OidNames(oid));
      SymbolNamesAppend(OidEvents(OidNames(oid)), [Symbol(name, [])]);
      OneSymbol(name, []);
    case ObjectType(_, _, _, _, _) => ObjectEventsName(rows, fakeidx, d);
    case TypeDeclaration(name, syntax) =>
      if syntax.Some? {
        var row, parents := RowEvents(rows, syntax.value), Parents(rows, syntax.value, None);
        NoSymbol(row);
        SymbolNamesAppend(row, [Symbol(name, parents)]);
        OneSymbol(name, parents);
      }
  }

  lemma OneSymbol(name: string, parents: seq<string>)
    ensures SymbolNames([Symbol(name, parents)]) == [name]
  {
  }

  /** Both passes name the same symbols, as often. */
  lemma {:induction false} PassesNameTheSame(fakeidx: nat, ds: seq<Declaration>)
    ensures multiset(SymbolNames(AllEvents(fakeidx, ds))) == multiset(AllGenerated(fakeidx, ds))
  {
    if ds != [] {
      var n := |ds| - 1;
      PassesNameTheSame(fakeidx, ds[..n]);
      var counter := CounterAfter(fakeidx, ds[..n]);
      var rows := RowsAfter(ds[..n]);
      SymbolNamesAppend(AllEvents(fakeidx, ds[..n]), EventsOf(rows, counter, ds[n]));
      EventsNameGenerated(rows, counter, ds[n]);
    }
  }

  /** A run without duplicate error declares each symbol once. */
  lemma {:induction false} DeclaredOnce(st: Symtab, events: seq<Event>, keys: seq<seq<string>>)
    requires WellOrdered(st) && Declarations(st) == map[] && |keys| == |events| && ApplyAll(st, events, keys).Ok?
    ensures NoRepeats(SymbolNames(events))
    ensures forall s :: s in SymbolNames(events) <==> s in Declarations(ApplyAll(st, events, keys).value)
  {
    if events != [] {
      var n := |events| - 1;
      DeclaredOnce(st, events[..n], keys[..n]);
      RunKeepsOrder(st, events[..n], keys[..n]);
      ApplyDeclares(ApplyAll(st, events[..n], keys[..n]).value, events[n], keys[n]);
    }
  }

  lemma RepeatsAreCounted(a: seq<string>, b: seq<string>)
    requires multiset(a) == multiset(b) && NoRepeats(a)
    ensures NoRepeats(b)
    ensures forall s :: s in a <==> s in b
  {
    assert forall s :: s in a <==> s in multiset(a);
    assert forall s :: s in b <==> s in multiset(b);
    if i, j :| 0 <= i < j < |b| && b[i] == b[j] {
      Twice(b, i, j);
      Once(a, b[i]);
    }
  }

  lemma Twice(s: seq<string>, i: nat, j: nat)
    requires i < j < |s| && s[i] == s[j]
    ensures multiset(s)[s[i]] >= 2
  {
    assert s == s[..i] + [s[i]] + s[i + 1..j] + [s[j]] + s[j + 1..];
  }

  lemma {:induction false} Once(s: seq<string>, x: string)
    requires NoRepeats(s)
    ensures multiset(s)[x] <= 1
  {
    if s != [] {
      var n := |s| - 1;
      assert s == s[..n] + [s[n]];
      Once(s[..n], x);
      if x == s[n] {
        assert x !in s[..n];
        assert x !in multiset(s[..n]);
      }
    }
  }

  /** For a module the symbol table pass accepts, and the same fake column counter, code generation meets
      no duplicate and its symbols are exactly those of the symbol table: none lacks generated code. */
  lemma PassesAgree(imports: set<string>, fakeidx: nat, ds: seq<Declaration>, keys: seq<seq<string>>)
    requires |keys| == |AllEvents(fakeidx, ds)| && GenCode(imports, AllEvents(fakeidx, ds), keys).Ok?
    ensures NoRepeats(AllGenerated(fakeidx, ds))
    ensures forall s :: s in GenCode(imports, AllEvents(fakeidx, ds), keys).value.order <==>
      s in AllGenerated(fakeidx, ds)
  {
    var start, events := Empty(imports), AllEvents(fakeidx, ds);
    AcceptedModule(imports, events, keys);
    assert Declarations(start) == map[];
    DeclaredOnce(start, events, keys);
    PassesNameTheSame(fakeidx, ds);
    RepeatsAreCounted(SymbolNames(events), AllGenerated(fakeidx, ds));
    var st := GenCode(imports, events, keys).value;
    assert Declarations(st) == st.out;
  }

  // ----- the counters of the two generators

  /** The symbols named in the text of the module, fake columns left out. */
  function DeclaredNames(ds: seq<Declaration>): set<string> {
    set d | d in ds && (d.TypeDeclaration? ==> d.typeSyntax.Some?) :: d.name
  }

  lemma DeclaredNext(ds: seq<Declaration>)
    requires ds != []
    ensures var d := ds[|ds| - 1];
      DeclaredNames(ds) ==
        DeclaredNames(ds[..|ds| - 1]) + if d.TypeDeclaration? && d.typeSyntax.None? then {} else {d.name}
  {
    assert ds == ds[..|ds| - 1] + [ds[|ds| - 1]];
    assert forall d :: d in ds <==> d in ds[..|ds| - 1] || d == ds[|ds| - 1];
  }

  /** The fake columns a module takes, whatever the counter. */
  function Fakes(ds: seq<Declaration>): nat {
    CounterAfter(0, ds)
  }

  lemma {:induction false} CounterMoves(fakeidx: nat, ds: seq<Declaration>)
    ensures CounterAfter(fakeidx, ds) == fakeidx + Fakes(ds)
  {
    if ds != [] {
      CounterMoves(fakeidx, ds[..|ds| - 1]);
    }
  }

  /** `name` is the fake column of a number from `first` to before `last`. */
  predicate IsFake(first: nat, last: nat, name: string) {
    exists i :: first <= i < last && name == FakeName(i)
  }

  lemma {:induction false} InFakeNames(fakeidx: nat, n: nat, name: string)
    ensures name in FakeNames(fakeidx, n) <==> IsFake(fakeidx, fakeidx + n, name)
  {
    if n > 0 {
      InFakeNames(fakeidx, n - 1, name);
      SplitFakes(fakeidx, fakeidx + n - 1, fakeidx + n, name);
      assert IsFake(fakeidx + n - 1, fakeidx + n, name) <==> name == FakeName(fakeidx + n - 1);
    }
  }

  lemma {:induction false} GeneratedNames(fakeidx: nat, ds: seq<Declaration>, name: string)
    ensures name in AllGenerated(fakeidx, ds) <==>
      name in DeclaredNames(ds) || IsFake(fakeidx, CounterAfter(fakeidx, ds), name)
  {
    if ds != [] {
      var n := |ds| - 1;
      var before := CounterAfter(fakeidx, ds[..n]);
      GeneratedNames(fakeidx, ds[..n], name);
      DeclaredNext(ds);
      CounterMoves(fakeidx, ds[..n]);
      InFakeNames(before, FakesUsed(ds[n]), name);
      assert name in Generated(before, ds[n]) <==>
        IsFake(before, before + FakesUsed(ds[n]), name) ||
        (name == ds[n].name && !(ds[n].TypeDeclaration? && ds[n].typeSyntax.None?));
      SplitFakes(fakeidx, before, before + FakesUsed(ds[n]), name);
    }
  }

  lemma SplitFakes(first: nat, middle: nat, last: nat, name: string)
    requires first <= middle <= last
    ensures IsFake(first, last, name) <==> IsFake(first, middle, name) || IsFake(middle, last, name)
  {
  }

  lemma FakeNamesDiffer(i: nat, j: nat)
    requires FakeName(i) == FakeName(j)
    ensures i == j
  {
    var prefix := "pysmiFakeCol";
    assert FakeName(i)[|prefix|..] == Decimal(i) && FakeName(j)[|prefix|..] == Decimal(j);
    NumberOfDecimal(i);
    NumberOfDecimal(j);
  }

  lemma FakeIsNotItsObject(middle: nat, d: Declaration, i: nat)
    requires NoRepeats(Generated(middle, d)) && middle <= i < middle + FakesUsed(d)
    ensures FakeName(i) != d.name
  {
    var fakes := FakeNames(middle, d.smiv1Indexes);
    InFakeNames(middle, d.smiv1Indexes, FakeName(i));
    assert Generated(middle, d) == [d.name] + fakes;
    HeadIsNotInTail(d.name, fakes, FakeName(i));
  }

  lemma NameIsNew(before: seq<string>, middle: nat, d: Declaration, name: string)
    requires NoRepeats(before + Generated(middle, d)) && name in before && !(d.TypeDeclaration? && d.typeSyntax.None?)
    ensures name != d.name
  {
    NewNames(before, Generated(middle, d));
    assert Generated(middle, d)[0] == d.name;
  }

  lemma {:induction false} FakesAreNotDeclared(fakeidx: nat, ds: seq<Declaration>, i: nat)
    requires NoRepeats(AllGenerated(fakeidx, ds)) && fakeidx <= i < CounterAfter(fakeidx, ds)
    ensures FakeName(i) !in DeclaredNames(ds)
  {
    var n := |ds| - 1;
    var middle, before := CounterAfter(fakeidx, ds[..n]), AllGenerated(fakeidx, ds[..n]);
    GeneratedNames(fakeidx, ds[..n], FakeName(i));
    DeclaredNext(ds);
    PartsHaveNoRepeats(before, Generated(middle, ds[n]));
    if i < middle {
      FakesAreNotDeclared(fakeidx, ds[..n], i);
      if !(ds[n].TypeDeclaration? && ds[n].typeSyntax.None?) {
        NameIsNew(before, middle, ds[n], FakeName(i));
      }
    } else {
      FakeIsNotItsObject(middle, ds[n], i);
      if FakeName(i) in DeclaredNames(ds[..n]) {
        NewFakeIsNotBefore(before, middle, ds[n], i);
      }
    }
  }

  lemma NewFakeIsNotBefore(before: seq<string>, middle: nat, d: Declaration, i: nat)
    requires NoRepeats(before + Generated(middle, d)) && middle <= i < middle + FakesUsed(d)
    ensures FakeName(i) !in before
  {
    InFakeNames(middle, d.smiv1Indexes, FakeName(i));
    NewNames(before, Generated(middle, d));
    assert FakeName(i) in Generated(middle, d);
  }

  lemma HeadIsNotInTail(head: string, tail: seq<string>, x: string)
    requires NoRepeats([head] + tail) && x in tail
    ensures x != head
  {
    var all := [head] + tail;
    var k :| 0 <= k < |tail| && tail[k] == x;
    assert all[0] == head && all[k + 1] == x;
  }

  lemma PartsHaveNoRepeats(a: seq<string>, b: seq<string>)
    requires NoRepeats(a + b)
    ensures NoRepeats(a) && NoRepeats(b)
  {
    var all := a + b;
    forall i, j | 0 <= i < j < |a| ensures a[i] != a[j] {
      assert all[i] == a[i] && all[j] == a[j];
    }
    forall i, j | 0 <= i < j < |b| ensures b[i] != b[j] {
      assert all[|a| + i] == b[i] && all[|a| + j] == b[j];
    }
  }

  /** A module is generated in full under counter `e` exactly when its table was built under the same
      counter, or it has no fake columns. */
  lemma CountersAgree(imports: set<string>, c: nat, ds: seq<Declaration>, keys: seq<seq<string>>, e: nat)
    requires |keys| == |AllEvents(c, ds)| && GenCode(imports, AllEvents(c, ds), keys).Ok?
    ensures (forall s :: s in GenCode(imports, AllEvents(c, ds), keys).value.order ==> s in AllGenerated(e, ds)) <==>
      c == e || Fakes(ds) == 0
  {
    PassesAgree(imports, c, ds, keys);
    CounterMoves(c, ds);
    CounterMoves(e, ds);
    if c != e && Fakes(ds) > 0 {
      var i := if c < e then c else c + Fakes(ds) - 1;
      GeneratedNames(c, ds, FakeName(i));
      GeneratedNames(e, ds, FakeName(i));
      FakesAreNotDeclared(c, ds, i);
      if k :| e <= k < CounterAfter(e, ds) && FakeName(i) == FakeName(k) {
        FakeNamesDiffer(i, k);
      }
      assert FakeName(i) in AllGenerated(c, ds) && FakeName(i) !in AllGenerated(e, ds);
    } else {
      SameGenerated(c, e, ds);
    }
  }

  lemma {:induction false} SameGenerated(c: nat, e: nat, ds: seq<Declaration>)
    requires c == e || Fakes(ds) == 0
    ensures AllGenerated(c, ds) == AllGenerated(e, ds)
  {
    if ds != [] && c != e {
      SameGenerated(c, e, ds[..|ds| - 1]);
    }
  }

  /** Code generation, its counter at `e`, of a module whose table was built with the counter at `c`: the
      symbols are emitted in the order of the table, or some symbol has no generated code or a duplicate. */
  method GenerateModule(imports: set<string>, importMap: set<string>, ghost c: nat, e: nat, ds: seq<Declaration>,
                        symtableOrder: seq<string>, ghost keys: seq<seq<string>>)
    returns (ok: bool, emitted: seq<string>)
    requires |keys| == |AllEvents(c, ds)| && GenCode(imports, AllEvents(c, ds), keys).Ok?
    requires symtableOrder == GenCode(imports, AllEvents(c, ds), keys).value.order
    ensures ok <==> c == e || Fakes(ds) == 0
    ensures ok ==> emitted == symtableOrder
  {
    emitted := [];
    var g := new PySnmpCodeGen(importMap, e);
    PassesAgree(imports, c, ds, keys);
    CountersAgree(imports, c, ds, keys, e);
    if c == e || Fakes(ds) == 0 {
      SameGenerated(c, e, ds);
    }
    ok := RegisterDeclarations(g, ds);
    if ok {
      ok, emitted := Emit(symtableOrder, g.out);
    }
  }

  /** The texts of the symbols in table order, up to the first that has none. */
  method Emit(symtableOrder: seq<string>, out: set<string>) returns (ok: bool, emitted: seq<string>)
    ensures ok <==> forall s :: s in symtableOrder ==> s in out
    ensures ok ==> emitted == symtableOrder
  {
    emitted := [];
    for i := 0 to |symtableOrder|
      invariant emitted == symtableOrder[..i]
      invariant forall s :: s in symtableOrder[..i] ==> s in out
    {
      if symtableOrder[i] !in out {
        return false, emitted;
      }
      emitted := emitted + [symtableOrder[i]];
    }
    ok := true;
  }

  /** The symbol table counter after the modules parsed before. */
  function CounterAfterAll(fakeidx: nat, modules: seq<seq<Declaration>>): nat {
    if modules == [] then fakeidx
    else CounterAfter(CounterAfterAll(fakeidx, modules[..|modules| - 1]), modules[|modules| - 1])
  }

  lemma {:induction false} CounterStays(fakeidx: nat, modules: seq<seq<Declaration>>)
    ensures CounterAfterAll(fakeidx, modules) >= fakeidx
    ensures CounterAfterAll(fakeidx, modules) == fakeidx <==> forall i :: 0 <= i < |modules| ==> Fakes(modules[i]) == 0
  {
    if modules != [] {
      var n := |modules| - 1;
      CounterStays(fakeidx, modules[..n]);
      CounterMoves(CounterAfterAll(fakeidx, modules[..n]), modules[n]);
      assert forall i :: 0 <= i < n ==> modules[..n][i] == modules[i];
    }
  }

  /** When both generators start with the same counter, a requested module is generated in full exactly
      when it has no fake columns, or no module parsed before it has. */
  lemma RequestedModuleIsGenerated(fakeidx: nat, before: seq<seq<Declaration>>, imports: set<string>,
                                   ds: seq<Declaration>, keys: seq<seq<string>>)
    requires var c := CounterAfterAll(fakeidx, before);
      |keys| == |AllEvents(c, ds)| && GenCode(imports, AllEvents(c, ds), keys).Ok?
    ensures var c := CounterAfterAll(fakeidx, before);
      (forall s :: s in GenCode(imports, AllEvents(c, ds), keys).value.order ==> s in AllGenerated(fakeidx, ds)) <==>
      Fakes(ds) == 0 || forall i :: 0 <= i < |before| ==> Fakes(before[i]) == 0
  {
    CountersAgree(imports, CounterAfterAll(fakeidx, before), ds, keys, fakeidx);
    CounterStays(fakeidx, before);
  }

  /** A module with one object, which has an SMIv1 index. */
  function OneIndex(name: string): seq<Declaration> {
    [ObjectType(name, [Numbered(1)], Simple("Integer32"), None, 1)]
  }

  lemma OneIndexEvents(c: nat, name: string)
    ensures AllEvents(c, OneIndex(name)) == [Symbol(FakeName(c), []), Symbol(name, ["Integer32"])]
    ensures Fakes(OneIndex(name)) == 1
  {
    var ds := OneIndex(name);
    var oid := [Numbered(1)];
    assert ds[..0] == [] && oid[..0] == [] && OidNames(oid) == [];
    assert CounterAfter(0, []) == 0;
    assert FakeNames(c, 0) == [] && FakeNames(c, 1) == [FakeName(c)];
    assert Parents({}, Simple("Integer32"), None) == ["Integer32"];
    assert AllEvents(c, ds) == AllEvents(c, []) + EventsOf({}, c, ds[0]);
  }

  lemma OneIndexAccepted(imports: set<string>, c: nat, name: string, keys: seq<seq<string>>)
    requires |keys| == 2 && name != FakeName(c)
    ensures |keys| == |AllEvents(c, OneIndex(name))| && GenCode(imports, AllEvents(c, OneIndex(name)), keys).Ok?
  {
    OneIndexEvents(c, name);
    var start, events := Empty(imports), [Symbol(FakeName(c), []), Symbol(name, ["Integer32"])];
    RegisteredAtOnce(start, FakeName(c), [], keys[0]);
    var s1 := Register(start, FakeName(c), []);
    RegisteredAtOnce(s1, name, ["Integer32"], keys[1]);
    assert events[..1][..0] == [] && keys[..1][..0] == [] && ApplyAll(start, [], []) == Ok(start);
    assert ApplyAll(start, events[..1], keys[..1]) == Ok(s1);
  }

  /** One text with two such modules: both are accepted, and the second lacks generated code. */
  lemma SecondModuleFails(imports: set<string>, fakeidx: nat, a: string, b: string, keys: seq<seq<string>>)
    requires |keys| == 2 && a != FakeName(fakeidx) && b != FakeName(fakeidx + 1)
    ensures var c := CounterAfterAll(fakeidx, [OneIndex(a)]);
      && |AllEvents(fakeidx, OneIndex(a))| == |AllEvents(c, OneIndex(b))| == 2
      && GenCode(imports, AllEvents(fakeidx, OneIndex(a)), keys).Ok? &&
        GenCode(imports, AllEvents(c, OneIndex(b)), keys).Ok?
      && !(forall s :: s in GenCode(imports, AllEvents(c, OneIndex(b)), keys).value.order ==>
             s in AllGenerated(fakeidx, OneIndex(b)))
  {
    var before := [OneIndex(a)];
    assert before[..0] == [] && before[0] == OneIndex(a);
    OneIndexEvents(fakeidx, a);
    CounterMoves(fakeidx, OneIndex(a));
    assert CounterAfterAll(fakeidx, before) == fakeidx + 1 by {
      assert CounterAfterAll(fakeidx, []) == fakeidx;
    }
    OneIndexAccepted(imports, fakeidx, a, keys);
    OneIndexAccepted(imports, fakeidx + 1, b, keys);
    OneIndexEvents(fakeidx + 1, b);
    RequestedModuleIsGenerated(fakeidx, before, imports, OneIndex(b), keys);
  }

  /** The names the constant imports of code generation introduce. */
  const CONSTANT_NAMES := {
    "Integer", "OctetString", "ObjectIdentifier", "NamedValues", "ConstraintsUnion", "ConstraintsIntersection",
    "SingleValueConstraint", "ValueRangeConstraint", "ValueSizeConstraint", "iso", "Bits", "Integer32", "TimeTicks",
    "Counter32", "Counter64", "NotificationType", "Gauge32", "ModuleIdentity", "MibScalar", "MibTable", "MibTableRow",
    "MibTableColumn", "ObjectIdentity", "Unsigned32", "IpAddress", "MibIdentifier", "DisplayString",
    "TextualConvention", "ModuleCompliance", "NotificationGroup"}

  /** Code emitted in the order of the symbol table: the class a type derives from is imported by the
      generated code or emitted before it, unless the type refines a row by name. */
  lemma BasesComeFirst(imports: set<string>, fakeidx: nat, ds: seq<Declaration>, keys: seq<seq<string>>,
                       imported: set<string>, d: Declaration)
    requires |keys| == |AllEvents(fakeidx, ds)| && GenCode(imports, AllEvents(fakeidx, ds), keys).Ok?
    requires imports + CONSTANT_NAMES <= imported
    requires d in ds && d.TypeDeclaration? && d.typeSyntax.Some?
    ensures var st := GenCode(imports, AllEvents(fakeidx, ds), keys).value;
      var base := TypeName(st.rows, d.typeSyntax.value);
      exists i :: 0 <= i < |st.order| && st.order[i] == d.name &&
        (base in imported || base in st.order[..i] || (d.typeSyntax.value.Simple? && base in st.rows))
  {
    var events := AllEvents(fakeidx, ds);
    var st := GenCode(imports, events, keys).value;
    AcceptedModule(imports, events, keys);
    var rows := TypeIsEvent(fakeidx, ds, d);
    var parent := TypeName(rows, d.typeSyntax.value);
    assert Symbol(d.name, [parent]) in events;
    assert rows <= st.rows by {
      forall r | r in rows ensures r in st.rows {
        assert Row(r) in events;
      }
    }
    BaseIsPlaced(st, rows, d, imported);
  }

  lemma BaseIsPlaced(st: Symtab, rows: set<string>, d: Declaration, imported: set<string>)
    requires WellOrdered(st) && rows <= st.rows && st.imports + CONSTANT_NAMES <= imported
    requires d.TypeDeclaration? && d.typeSyntax.Some?
    requires d.name in st.out && TypeName(rows, d.typeSyntax.value) in st.out[d.name]
    ensures var base := TypeName(st.rows, d.typeSyntax.value);
      exists i :: 0 <= i < |st.order| && st.order[i] == d.name &&
        (base in imported || base in st.order[..i] || (d.typeSyntax.value.Simple? && base in st.rows))
  {
    var i :| 0 <= i < |st.order| && st.order[i] == d.name;
    assert Preceded(st, i) && TypeName(rows, d.typeSyntax.value) in st.out[st.order[i]];
    assert BASE_TYPES <= CONSTANT_NAMES && TABLE_CLASSES <= CONSTANT_NAMES;
  }

  /** The event of a type, with the rows met before it. */
  lemma {:induction false} TypeIsEvent(fakeidx: nat, ds: seq<Declaration>, d: Declaration) returns (rows: set<string>)
    requires d in ds && d.TypeDeclaration? && d.typeSyntax.Some?
    ensures Symbol(d.name, [TypeName(rows, d.typeSyntax.value)]) in AllEvents(fakeidx, ds)
    ensures forall r :: r in rows ==> Row(r) in AllEvents(fakeidx, ds)
  {
    var n := |ds| - 1;
    if ds[n] == d {
      rows := RowsAfter(ds[..n]);
      var events := EventsOf(rows, CounterAfter(fakeidx, ds[..n]), d);
      assert events[|events| - 1] == Symbol(d.name, [TypeName(rows, d.typeSyntax.value)]);
      RowsAreEvents(fakeidx, ds[..n]);
    } else {
      assert ds == ds[..n] + [ds[n]];
      rows := TypeIsEvent(fakeidx, ds[..n], d);
    }
  }

  lemma {:induction false} RowsAreEvents(fakeidx: nat, ds: seq<Declaration>)
    ensures forall r :: r in RowsAfter(ds) ==> Row(r) in AllEvents(fakeidx, ds)
  {
    if ds != [] {
      var n := |ds| - 1;
      RowsAreEvents(fakeidx, ds[..n]);
      var rows, counter, syntax := RowsAfter(ds[..n]), CounterAfter(fakeidx, ds[..n]), SyntaxOf(ds[n]);
      if syntax.Some? && syntax.value.ConceptualTable? {
        assert EventsOf(rows, counter, ds[n])[0] == RowEvents(rows, syntax.value)[0];
      }
    }
  }
}
