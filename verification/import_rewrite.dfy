/** Rewriting SMIv1 imports to SMIv2 in the dictionary the parser built and both generators share. */
module ImportRewrite {

  /** The parser builds lists; the constant imports of an absent module come in as a tuple, which has
      no `append` and no `remove`. */
  datatype Entry = List(items: seq<string>) | Tuple(items: seq<string>)

  type Imports = map<string, Entry>

  type Pair = (string, string)

  /** For a module and a symbol, the pairs that replace it. */
  type Conversions = map<string, map<string, seq<Pair>>>

  predicate Convertible(conv: Conversions, p: Pair) {
    p.0 in conv && p.1 in conv[p.0]
  }

  predicate In(p: Pair, imports: Imports) {
    p.0 in imports && p.1 in imports[p.0].items
  }

  /** `q` replaces a convertible pair of `imports`. */
  ghost predicate IsImage(conv: Conversions, imports: Imports, q: Pair) {
    exists p: Pair :: In(p, imports) && Convertible(conv, p) && q in conv[p.0][p.1]
  }

  /** Replacements and constant imports are not convertible themselves, nor do they stay in the module. */
  ghost predicate Settled(conv: Conversions, constants: map<string, seq<string>>) {
    && (forall p: Pair, q :: Convertible(conv, p) && q in conv[p.0][p.1] ==> !Convertible(conv, q) && q.0 != p.0)
    && (forall m, s :: m in constants && s in constants[m] ==> !Convertible(conv, (m, s)))
  }

  /** Nothing is appended to or removed from a tuple. */
  ghost predicate TuplesUntouched(conv: Conversions, imports: Imports) {
    forall p: Pair :: In(p, imports) && Convertible(conv, p) ==>
      imports[p.0].List? && forall q :: q in conv[p.0][p.1] ==> q.0 in imports ==> imports[q.0].List?
  }

  /** What the rewritten dictionary holds. */
  ghost predicate RewrittenPair(conv: Conversions, constants: map<string, seq<string>>, imports: Imports, q: Pair) {
    || (In(q, imports) && !Convertible(conv, q))
    || IsImage(conv, imports, q)
    || (q.0 in constants && q.1 in constants[q.0])
  }

  /** The list without its first `x`. */
  function RemoveFirst(s: seq<string>, x: string): seq<string> {
    if s == [] then [] else if s[0] == x then s[1..] else [s[0]] + RemoveFirst(s[1..], x)
  }

  lemma {:induction false} RemoveFirstCounts(s: seq<string>, x: string)
    requires x in s
    ensures multiset(RemoveFirst(s, x)) == multiset(s) - multiset{x}
  {
    assert s == [s[0]] + s[1..];
    if s[0] != x {
      RemoveFirstCounts(s[1..], x);
    }
  }

  function Items(imports: Imports, m: string): seq<string> {
    if m in imports then imports[m].items else []
  }

  function Appended(imports: Imports, q: Pair): Imports {
    imports[q.0 := List(Items(imports, q.0) + [q.1])]
  }

  /** How often a module lists a symbol. */
  function Count(imports: Imports, p: Pair): nat {
    multiset(Items(imports, p.0))[p.1]
  }

  lemma CountIsIn(imports: Imports, p: Pair)
    ensures Count(imports, p) > 0 <==> In(p, imports)
  {
  }

  lemma AppendCounts(imports: Imports, q: Pair, p: Pair)
    ensures Count(Appended(imports, q), p) == Count(imports, p) + if p == q then 1 else 0
    ensures In(p, Appended(imports, q)) <==> In(p, imports) || p == q
  {
  }

  /** The dictionary with the replacements `qs` appended one by one. */
  function AppendAll(imports: Imports, qs: seq<Pair>): Imports {
    if qs == [] then imports else Appended(AppendAll(imports, qs[..|qs| - 1]), qs[|qs| - 1])
  }

  lemma {:induction false} AppendAllCounts(imports: Imports, qs: seq<Pair>, p: Pair)
    ensures p !in qs ==> Count(AppendAll(imports, qs), p) == Count(imports, p)
    ensures In(p, AppendAll(imports, qs)) <==> In(p, imports) || p in qs
    ensures forall m :: m in imports ==> m in AppendAll(imports, qs)
    ensures forall m :: m in AppendAll(imports, qs) ==>
      if exists q :: q in qs && q.0 == m then AppendAll(imports, qs)[m].List?
      else m in imports && AppendAll(imports, qs)[m] == imports[m]
  {
    if qs != [] {
      var n := |qs| - 1;
      AppendAllCounts(imports, qs[..n], p);
      AppendCounts(AppendAll(imports, qs[..n]), qs[n], p);
      assert qs == qs[..n] + [qs[n]];
      assert forall q :: q in qs <==> q in qs[..n] || q == qs[n];
    }
  }

  /** The replacements a module calls for, and the pairs it marks for removal, in the order of its list. */
  function Replacements(conv: Conversions, m: string, items: seq<string>): seq<Pair> {
    if items == [] then [] else
    var n := |items| - 1;
    Replacements(conv, m, items[..n]) + if Convertible(conv, (m, items[n])) then conv[m][items[n]] else []
  }

  function Marked(conv: Conversions, m: string, items: seq<string>): seq<Pair> {
    if items == [] then [] else
    var n := |items| - 1;
    Marked(conv, m, items[..n]) + if Convertible(conv, (m, items[n])) then [(m, items[n])] else []
  }

  lemma {:induction false} ReplacementsOf(conv: Conversions, m: string, items: seq<string>)
    ensures forall q :: q in Replacements(conv, m, items) <==>
      exists s :: s in items && Convertible(conv, (m, s)) && q in conv[m][s]
  {
    if items != [] {
      var n := |items| - 1;
      ReplacementsOf(conv, m, items[..n]);
      assert items == items[..n] + [items[n]];
      assert forall s :: s in items <==> s in items[..n] || s == items[n];
    }
  }

  lemma {:induction false} MarkedCounts(conv: Conversions, m: string, items: seq<string>, p: Pair)
    ensures multiset(Marked(conv, m, items))[p] ==
      if p.0 == m && Convertible(conv, p) then multiset(items)[p.1] else 0
  {
    if items != [] {
      var n := |items| - 1;
      var d := (m, items[n]);
      MarkedCounts(conv, m, items[..n], p);
      LastCounts(items, p.1);
      var before := Marked(conv, m, items[..n]);
      if Convertible(conv, d) {
        LastCounts(before + [d], p);
        assert (before + [d])[..|before|] == before;
      } else {
        assert before + [] == before;
      }
    }
  }

  lemma LastCounts<T>(s: seq<T>, x: T)
    requires s != []
    ensures multiset(s)[x] == multiset(s[..|s| - 1])[x] + if s[|s| - 1] == x then 1 else 0
  {
    assert s == s[..|s| - 1] + [s[|s| - 1]];
  }

  lemma {:induction false} AppendAllConcat(imports: Imports, a: seq<Pair>, b: seq<Pair>)
    ensures AppendAll(imports, a + b) == AppendAll(AppendAll(imports, a), b)
  {
    if b == [] {
      assert a + b == a;
    } else {
      assert (a + b)[..|a + b| - 1] == a + b[..|b| - 1];
      AppendAllConcat(imports, a, b[..|b| - 1]);
    }
  }

  /** The replacements of a pair go to lists, whatever was appended before. */
  lemma TargetsAreLists(conv: Conversions, start: Imports, before: seq<Pair>, p: Pair)
    requires TuplesUntouched(conv, start) && In(p, start) && Convertible(conv, p)
    ensures forall q :: q in conv[p.0][p.1] ==> q.0 in AppendAll(start, before) ==> AppendAll(start, before)[q.0].List?
  {
  }

  /** A list or tuple of the module goes on with the constants; a module without entry gets a tuple. */
  function ConstantsMerged(constants: map<string, seq<string>>, imports: Imports, m: string): Entry
    requires m in imports || m in constants
  {
    if m !in constants then imports[m]
    else if m !in imports then Tuple(constants[m])
    else match imports[m]
      case List(items) => List(items + constants[m])
      case Tuple(items) => Tuple(items + constants[m])
  }

  class Generator {
    const conv: Conversions
    const constants: map<string, seq<string>>
    var imports: Imports

    constructor (conv: Conversions, constants: map<string, seq<string>>, imports: Imports)
      ensures this.conv == conv && this.constants == constants && this.imports == imports
    {
      this.conv, this.constants, this.imports := conv, constants, imports;
    }

    /** The replacements of one symbol. */
    method AppendImages(qs: seq<Pair>)
      requires forall q :: q in qs ==> q.0 in imports ==> imports[q.0].List?
      modifies this`imports
      ensures imports == AppendAll(old(imports), qs)
    {
      ghost var start := imports;
      for i := 0 to |qs|
        invariant imports == AppendAll(start, qs[..i])
      {
        assert qs[..i + 1][..i] == qs[..i];
        AppendAllCounts(start, qs[..i], qs[i]);
        var (newModule, newSymbol) := qs[i];
        if newModule in imports {
          assert imports[newModule].List?;
          imports := imports[newModule := List(imports[newModule].items + [newSymbol])];
        } else {
          assert [] + [newSymbol] == [newSymbol];
          imports := imports[newModule := List([newSymbol])];
        }
      }
      assert qs[..|qs|] == qs;
    }

    /** One module: its convertible symbols are marked, their replacements appended elsewhere. */
    method ConvertModule(m: string) returns (toDel: seq<Pair>)
      requires m in imports && Settled(conv, constants) && TuplesUntouched(conv, imports)
      modifies this`imports
      ensures toDel == Marked(conv, m, old(imports)[m].items)
      ensures imports == AppendAll(old(imports), Replacements(conv, m, old(imports)[m].items))
    {
      toDel := [];
      ghost var start := imports;
      var symbols := imports[m].items;
      for i := 0 to |symbols|
        invariant toDel == Marked(conv, m, symbols[..i])
        invariant imports == AppendAll(start, Replacements(conv, m, symbols[..i]))
      {
        assert symbols[..i + 1][..i] == symbols[..i];
        var symbol := symbols[i];
        ghost var before := Replacements(conv, m, symbols[..i]);
        assert before + [] == before;
        if m in conv && symbol in conv[m] {
          toDel := toDel + [(m, symbol)];
          TargetsAreLists(conv, start, before, (m, symbol));
          AppendAllConcat(start, before, conv[m][symbol]);
          AppendImages(conv[m][symbol]);
        }
      }
      assert symbols[..|symbols|] == symbols;
    }

    /** The modules, in the order the dictionary gives them. */
    method ConvertAll() returns (toDel: seq<Pair>)
      requires Settled(conv, constants) && TuplesUntouched(conv, imports)
      modifies this`imports
      ensures Converted(conv, old(imports), imports, old(imports).Keys, toDel)
    {
      toDel := [];
      ghost var start, seen: set<string> := imports, {};
      var todo := imports.Keys;
      ConvertedStart(conv, start);
      while todo != {}
        invariant todo !! seen && todo + seen == start.Keys && todo <= imports.Keys
        invariant Converted(conv, start, imports, seen, toDel)
        decreases todo
      {
        var m :| m in todo;
        ConvertedNext(conv, constants, start, imports, seen, toDel, m);
        var more := ConvertModule(m);
        toDel := toDel + more;
        todo := todo - {m};
        seen := seen + {m};
      }
      assert seen == start.Keys;
    }

    /** Each marked pair is removed once from the front of its list. */
    method RemoveMarked(toDel: seq<Pair>)
      requires Pending(conv, imports, imports, toDel)
      modifies this`imports
      ensures Pending(conv, old(imports), imports, [])
    {
      ghost var start := imports;
      assert toDel[0..] == toDel;
      for i := 0 to |toDel|
        invariant Pending(conv, start, imports, toDel[i..])
      {
        var (m, symbol) := toDel[i];
        assert toDel[i..][0] == toDel[i] && toDel[i..][1..] == toDel[i + 1..];
        PendingNext(conv, start, imports, toDel[i..]);
        imports := imports[m := List(RemoveFirst(imports[m].items, symbol))];
      }
      assert toDel[|toDel|..] == [];
    }

    /** The constant imports extend the list of a module, or come in as a tuple. */
    method MergeConstants()
      modifies this`imports
      ensures forall q: Pair :: In(q, imports) <==> In(q, old(imports)) || (q.0 in constants && q.1 in constants[q.0])
      ensures imports.Keys == old(imports).Keys + constants.Keys
      ensures forall m :: m in imports ==> imports[m] == ConstantsMerged(constants, old(imports), m)
    {
      ghost var start, seen: set<string> := imports, {};
      var todo := constants.Keys;
      while todo != {}
        invariant todo !! seen && todo + seen == constants.Keys
        invariant imports.Keys == start.Keys + seen
        invariant forall m :: m in imports ==>
          imports[m] == if m in seen then ConstantsMerged(constants, start, m) else start[m]
        invariant forall q: Pair :: In(q, imports) <==> In(q, start) || (q.0 in seen && q.1 in constants[q.0])
        decreases todo
      {
        var m :| m in todo;
        ghost var before := imports;
        if m in imports {
          imports := imports[m := imports[m].(items := imports[m].items + constants[m])];
        } else {
          imports := imports[m := Tuple(constants[m])];
        }
        assert forall q: Pair :: In(q, imports) <==> In(q, before) || (q.0 == m && q.1 in constants[m]);
        todo := todo - {m};
        seen := seen + {m};
      }
      assert seen == constants.Keys;
    }

    /** No convertible pair is left, every other pair is kept, and the replacements and constants are in. */
    method GenImports()
      requires Settled(conv, constants) && TuplesUntouched(conv, imports)
      modifies this`imports
      ensures forall q: Pair :: In(q, imports) <==> RewrittenPair(conv, constants, old(imports), q)
      ensures forall q: Pair :: In(q, imports) ==> !Convertible(conv, q)
    {
      ghost var start := imports;
      var toDel := ConvertAll();
      ghost var converted := imports;
      MarkedArePending(conv, start, converted, toDel);
      RemoveMarked(toDel);
      ghost var removed := imports;
      MergeConstants();
      forall q: Pair ensures In(q, imports) <==> RewrittenPair(conv, constants, start, q) {
        PendingEnd(conv, converted, removed, q);
        ConvertedPairs(conv, constants, start, converted, toDel, q);
      }
    }
  }

  /** The marks left are the convertible pairs left, all in lists; nothing else has changed. */
  ghost predicate Pending(conv: Conversions, start: Imports, now: Imports, toDel: seq<Pair>) {
    && (forall p: Pair :: multiset(toDel)[p] == if Convertible(conv, p) then Count(now, p) else 0)
    && (forall p: Pair :: !Convertible(conv, p) ==> Count(now, p) == Count(start, p))
    && (forall p: Pair :: In(p, now) && Convertible(conv, p) ==> now[p.0].List?)
  }

  lemma RemovedCounts(now: Imports, d: Pair, p: Pair)
    requires In(d, now)
    ensures var next := Without(now, d);
      && Count(next, p) == Count(now, p) - (if p == d then 1 else 0)
      && (In(p, next) ==> In(p, now))
  {
    RemoveFirstCounts(now[d.0].items, d.1);
    CountIsIn(now, d);
    CountIsIn(now, p);
    CountIsIn(Without(now, d), p);
  }

  lemma FirstCounts<T>(s: seq<T>, x: T)
    requires s != []
    ensures multiset(s)[x] == multiset(s[1..])[x] + if s[0] == x then 1 else 0
  {
    assert s == [s[0]] + s[1..];
  }

  lemma PendingFirst(conv: Conversions, start: Imports, now: Imports, toDel: seq<Pair>)
    requires Pending(conv, start, now, toDel) && toDel != []
    ensures Convertible(conv, toDel[0]) && In(toDel[0], now) && now[toDel[0].0].List?
  {
    assert toDel[0] in multiset(toDel);
    CountIsIn(now, toDel[0]);
  }

  /** The dictionary after removing the first occurrence of a pair. */
  function Without(now: Imports, d: Pair): Imports
    requires d.0 in now
  {
    now[d.0 := List(RemoveFirst(now[d.0].items, d.1))]
  }

  lemma PendingNextAt(conv: Conversions, start: Imports, now: Imports, toDel: seq<Pair>, p: Pair)
    requires Pending(conv, start, now, toDel) && toDel != [] && In(toDel[0], now) && Convertible(conv, toDel[0])
    ensures var next := Without(now, toDel[0]);
      && multiset(toDel[1..])[p] == (if Convertible(conv, p) then Count(next, p) else 0)
      && (!Convertible(conv, p) ==> Count(next, p) == Count(start, p))
      && (In(p, next) && Convertible(conv, p) ==> next[p.0].List?)
  {
    FirstCounts(toDel, p);
    RemovedCounts(now, toDel[0], p);
  }

  lemma PendingNext(conv: Conversions, start: Imports, now: Imports, toDel: seq<Pair>)
    requires Pending(conv, start, now, toDel) && toDel != []
    ensures In(toDel[0], now) && now[toDel[0].0].List?
    ensures Pending(conv, start, Without(now, toDel[0]), toDel[1..])
  {
    PendingFirst(conv, start, now, toDel);
    var next := Without(now, toDel[0]);
    forall p: Pair
      ensures multiset(toDel[1..])[p] == if Convertible(conv, p) then Count(next, p) else 0
    {
      PendingNextAt(conv, start, now, toDel, p);
    }
    forall p: Pair
      ensures !Convertible(conv, p) ==> Count(next, p) == Count(start, p)
      ensures In(p, next) && Convertible(conv, p) ==> next[p.0].List?
    {
      PendingNextAt(conv, start, now, toDel, p);
    }
  }

  lemma MarkedArePending(conv: Conversions, start: Imports, now: Imports, toDel: seq<Pair>)
    requires Converted(conv, start, now, start.Keys, toDel)
    ensures Pending(conv, now, now, toDel)
  {
  }

  lemma PendingEnd(conv: Conversions, start: Imports, now: Imports, q: Pair)
    requires Pending(conv, start, now, [])
    ensures In(q, now) <==> In(q, start) && !Convertible(conv, q)
  {
    CountIsIn(now, q);
    CountIsIn(start, q);
    assert multiset([])[q] == 0;
  }

  lemma ConvertedPairs(conv: Conversions, constants: map<string, seq<string>>, start: Imports, now: Imports,
                       toDel: seq<Pair>, q: Pair)
    requires Settled(conv, constants) && Converted(conv, start, now, start.Keys, toDel)
    ensures RewrittenPair(conv, constants, start, q) <==>
      (In(q, now) && !Convertible(conv, q)) || (q.0 in constants && q.1 in constants[q.0])
  {
  }

  /** `q` replaces a convertible pair of a module in `seen`. */
  ghost predicate ImageFrom(conv: Conversions, imports: Imports, seen: set<string>, q: Pair) {
    exists p: Pair :: p.0 in seen && In(p, imports) && Convertible(conv, p) && q in conv[p.0][p.1]
  }

  ghost predicate MarksConverted(conv: Conversions, start: Imports, seen: set<string>, toDel: seq<Pair>) {
    forall p: Pair :: multiset(toDel)[p] == if p.0 in seen && Convertible(conv, p) then Count(start, p) else 0
  }

  ghost predicate KeepsCounts(conv: Conversions, start: Imports, now: Imports) {
    forall p: Pair :: Convertible(conv, p) ==> Count(now, p) == Count(start, p)
  }

  ghost predicate HoldsImages(conv: Conversions, start: Imports, now: Imports, seen: set<string>) {
    forall q: Pair :: In(q, now) <==> In(q, start) || ImageFrom(conv, start, seen, q)
  }

  /** The state of the conversion after the modules `seen`. */
  ghost predicate Converted(conv: Conversions, start: Imports, now: Imports, seen: set<string>, toDel: seq<Pair>) {
    MarksConverted(conv, start, seen, toDel) && KeepsCounts(conv, start, now) && HoldsImages(conv, start, now, seen)
    && TuplesUntouched(conv, now)
  }

  lemma ConvertedStart(conv: Conversions, start: Imports)
    requires TuplesUntouched(conv, start)
    ensures Converted(conv, start, start, {}, [])
  {
  }

  lemma NewMarks(conv: Conversions, start: Imports, now: Imports, seen: set<string>, toDel: seq<Pair>, m: string)
    requires MarksConverted(conv, start, seen, toDel) && KeepsCounts(conv, start, now) && m !in seen && m in now
    ensures MarksConverted(conv, start, seen + {m}, toDel + Marked(conv, m, now[m].items))
  {
    forall p: Pair
      ensures multiset(toDel + Marked(conv, m, now[m].items))[p] ==
        if p.0 in seen + {m} && Convertible(conv, p) then Count(start, p) else 0
    {
      MarkedCounts(conv, m, now[m].items, p);
    }
  }

  lemma NewImages(conv: Conversions, start: Imports, now: Imports, m: string, q: Pair)
    requires KeepsCounts(conv, start, now) && m in now
    ensures q in Replacements(conv, m, now[m].items) <==> ImageFrom(conv, start, {m}, q)
  {
    ReplacementsOf(conv, m, now[m].items);
    if q in Replacements(conv, m, now[m].items) {
      var s :| s in now[m].items && Convertible(conv, (m, s)) && q in conv[m][s];
      CountIsIn(now, (m, s));
      CountIsIn(start, (m, s));
    }
    if ImageFrom(conv, start, {m}, q) {
      var p: Pair :| p.0 in {m} && In(p, start) && Convertible(conv, p) && q in conv[p.0][p.1];
      CountIsIn(now, p);
      CountIsIn(start, p);
    }
  }

  lemma ReplacementsStay(conv: Conversions, constants: map<string, seq<string>>, now: Imports, m: string, p: Pair)
    requires Settled(conv, constants) && m in now
    ensures var next := AppendAll(now, Replacements(conv, m, now[m].items));
      && (Convertible(conv, p) ==> Count(next, p) == Count(now, p))
      && (In(p, next) <==> In(p, now) || p in Replacements(conv, m, now[m].items))
  {
    ReplacementsOf(conv, m, now[m].items);
    AppendAllCounts(now, Replacements(conv, m, now[m].items), p);
  }

  lemma TuplesStay(conv: Conversions, constants: map<string, seq<string>>, now: Imports, m: string)
    requires Settled(conv, constants) && TuplesUntouched(conv, now) && m in now
    ensures TuplesUntouched(conv, AppendAll(now, Replacements(conv, m, now[m].items)))
  {
    var qs := Replacements(conv, m, now[m].items);
    var next := AppendAll(now, qs);
    ReplacementsOf(conv, m, now[m].items);
    AppendAllCounts(now, qs, ("", ""));
    forall p: Pair | In(p, next) && Convertible(conv, p)
      ensures next[p.0].List? && forall q :: q in conv[p.0][p.1] ==> q.0 in next ==> next[q.0].List?
    {
      ReplacementsStay(conv, constants, now, m, p);
      CountIsIn(next, p);
      CountIsIn(now, p);
      assert In(p, now);
    }
  }

  lemma ConvertedNext(conv: Conversions, constants: map<string, seq<string>>,
                      start: Imports, now: Imports, seen: set<string>, toDel: seq<Pair>, m: string)
    requires Settled(conv, constants) && Converted(conv, start, now, seen, toDel) && m !in seen && m in now
    ensures Converted(conv, start, AppendAll(now, Replacements(conv, m, now[m].items)), seen + {m},
                      toDel + Marked(conv, m, now[m].items))
    ensures now.Keys <= AppendAll(now, Replacements(conv, m, now[m].items)).Keys
  {
    var next := AppendAll(now, Replacements(conv, m, now[m].items));
    AppendAllCounts(now, Replacements(conv, m, now[m].items), ("", ""));
    NewMarks(conv, start, now, seen, toDel, m);
    TuplesStay(conv, constants, now, m);
    forall p: Pair ensures Convertible(conv, p) ==> Count(next, p) == Count(start, p) {
      ReplacementsStay(conv, constants, now, m, p);
    }
    forall q: Pair ensures In(q, next) <==> In(q, start) || ImageFrom(conv, start, seen + {m}, q) {
      ReplacementsStay(conv, constants, now, m, q);
      NewImages(conv, start, now, m, q);
    }
  }

  /** A second generator on the same dictionary, whose conversions are among those of the first, finds
      nothing to convert: it never appends to a tuple, and only its own constants are new. */
  lemma SecondGeneratorConvertsNothing(conv: Conversions, constants: map<string, seq<string>>, original: Imports,
                                       shared: Imports, second: Conversions, more: map<string, seq<string>>)
    requires Settled(conv, constants)
    requires forall q: Pair :: In(q, shared) <==> RewrittenPair(conv, constants, original, q)
    requires forall p: Pair :: Convertible(second, p) ==> Convertible(conv, p)
    ensures TuplesUntouched(second, shared) && forall q: Pair :: !IsImage(second, shared, q)
    ensures forall q: Pair :: RewrittenPair(second, more, shared, q) <==>
      In(q, shared) || (q.0 in more && q.1 in more[q.0])
  {
  }

  // ----- the import map

  /** The names a symbol of a module introduces. */
  ghost predicate Introduces(imports: Imports, trans: string -> seq<string>, m: string, name: string) {
    exists s :: In((m, s), imports) && name in trans(s)
  }

  /** `m` is the last of `modules` that introduces `name`. */
  ghost predicate LastIntroducing(imports: Imports, trans: string -> seq<string>, modules: seq<string>, name: string,
                                  m: string) {
    exists i :: 0 <= i < |modules| && m == modules[i] && Introduces(imports, trans, m, name) &&
      forall j :: i < j < |modules| ==> !Introduces(imports, trans, modules[j], name)
  }

  /** Later modules in `modules` win. */
  ghost predicate IsImportMap(importMap: map<string, string>, imports: Imports, trans: string -> seq<string>,
                              modules: seq<string>) {
    forall name ::
      if name in importMap then LastIntroducing(imports, trans, modules, name, importMap[name])
      else forall i :: 0 <= i < |modules| ==> !Introduces(imports, trans, modules[i], name)
  }

  /** The symbols of one module, in the order of a Python set. */
  method MapModule(before: map<string, string>, m: string, items: seq<string>, trans: string -> seq<string>)
    returns (importMap: map<string, string>)
    ensures forall name :: name in importMap <==> name in before || exists s :: s in items && name in trans(s)
    ensures forall name :: name in importMap ==>
      importMap[name] == if exists s :: s in items && name in trans(s) then m else before[name]
  {
    importMap := before;
    var symbols := set s | s in items;
    ghost var seen: set<string> := {};
    while symbols != {}
      invariant symbols + seen == set s | s in items
      invariant forall name :: name in importMap <==> name in before || exists s :: s in seen && name in trans(s)
      invariant forall name :: name in importMap ==>
        importMap[name] == if exists s :: s in seen && name in trans(s) then m else before[name]
      decreases symbols
    {
      var s :| s in symbols;
      importMap := importMap + map name | name in trans(s) :: m;
      symbols := symbols - {s};
      seen := seen + {s};
    }
    assert forall s :: s in items <==> s in seen;
  }

  lemma MapNext(before: map<string, string>, after: map<string, string>, imports: Imports, trans: string -> seq<string>,
                modules: seq<string>, m: string)
    requires IsImportMap(before, imports, trans, modules) && m in imports
    requires forall name :: name in after <==> name in before || Introduces(imports, trans, m, name)
    requires forall name :: name in after ==>
      after[name] == if Introduces(imports, trans, m, name) then m else before[name]
    ensures IsImportMap(after, imports, trans, modules + [m])
  {
    var all := modules + [m];
    assert forall j :: 0 <= j < |all| ==> all[j] == if j < |modules| then modules[j] else m;
    forall name | name in after ensures LastIntroducing(imports, trans, all, name, after[name]) {
      if Introduces(imports, trans, m, name) {
        assert all[|modules|] == m;
      } else {
        LastStays(imports, trans, modules, name, before[name], m);
      }
    }
  }

  lemma LastStays(imports: Imports, trans: string -> seq<string>, modules: seq<string>, name: string, last: string,
                  m: string)
    requires LastIntroducing(imports, trans, modules, name, last) && !Introduces(imports, trans, m, name)
    ensures LastIntroducing(imports, trans, modules + [m], name, last)
  {
    var i :| 0 <= i < |modules| && last == modules[i] && Introduces(imports, trans, last, name) &&
      forall j :: i < j < |modules| ==> !Introduces(imports, trans, modules[j], name);
    var all := modules + [m];
    assert all[i] == last;
    assert forall j :: i < j < |all| ==> all[j] == if j < |modules| then modules[j] else m;
  }

  /** The modules in sorted order. */
  method BuildImportMap(imports: Imports, trans: string -> seq<string>, modules: seq<string>)
    returns (importMap: map<string, string>)
    requires forall m :: m in modules ==> m in imports
    ensures IsImportMap(importMap, imports, trans, modules)
    ensures forall name :: name in importMap ==> importMap[name] in modules
  {
    importMap := map[];
    for i := 0 to |modules|
      invariant IsImportMap(importMap, imports, trans, modules[..i])
    {
      var m := modules[i];
      ghost var before := importMap;
      importMap := MapModule(importMap, m, imports[m].items, trans);
      assert forall name :: Introduces(imports, trans, m, name) <==>
        exists s :: s in imports[m].items && name in trans(s) by {
        assert forall s :: In((m, s), imports) <==> s in imports[m].items;
      }
      MapNext(before, importMap, imports, trans, modules[..i], m);
      assert modules[..i + 1] == modules[..i] + [m];
    }
    assert modules[..|modules|] == modules;
  }

  /** A name belongs to the last module that brings it in, and to none that does not. */
  lemma LaterModuleWins(importMap: map<string, string>, imports: Imports, trans: string -> seq<string>,
                        modules: seq<string>, name: string, i: nat)
    requires IsImportMap(importMap, imports, trans, modules) && i < |modules| && modules[i] in imports
    requires exists s :: s in imports[modules[i]].items && name in trans(s)
    requires forall j :: i < j < |modules| && modules[j] in imports ==>
      forall s :: s in imports[modules[j]].items ==> name !in trans(s)
    ensures name in importMap && importMap[name] == modules[i]
  {
    var s :| s in imports[modules[i]].items && name in trans(s);
    assert In((modules[i], s), imports) && Introduces(imports, trans, modules[i], name);
    assert LastIntroducing(imports, trans, modules, name, modules[i]);
  }

  /** The import map depends on the pairs and the sorted modules only, not on any iteration order. */
  lemma ImportMapIgnoresOrder(a: map<string, string>, b: map<string, string>, x: Imports, y: Imports,
                              trans: string -> seq<string>, modules: seq<string>)
    requires forall q: Pair :: In(q, x) <==> In(q, y)
    requires IsImportMap(a, x, trans, modules) && IsImportMap(b, y, trans, modules)
    ensures a == b
  {
    forall name, m ensures Introduces(x, trans, m, name) <==> Introduces(y, trans, m, name) {
    }
    forall name | name in a ensures name in b && a[name] == b[name] {
      LastIsUnique(x, y, trans, modules, name, a, b);
    }
    forall name | name in b ensures name in a {
      LastIsUnique(y, x, trans, modules, name, b, a);
    }
  }

  lemma LastIsUnique(x: Imports, y: Imports, trans: string -> seq<string>, modules: seq<string>, name: string,
                     a: map<string, string>, b: map<string, string>)
    requires forall m :: Introduces(x, trans, m, name) <==> Introduces(y, trans, m, name)
    requires IsImportMap(a, x, trans, modules) && IsImportMap(b, y, trans, modules) && name in a
    ensures name in b && a[name] == b[name]
  {
    assert LastIntroducing(x, trans, modules, name, a[name]);
    if name in b {
      assert LastIntroducing(y, trans, modules, name, b[name]);
    }
  }
}
