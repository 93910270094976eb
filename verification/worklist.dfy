/** The parse loop of the MIB compiler: which modules it reads, and that it ends. */
module ParseWorklist {
  import opened Pigeonhole

  /** One module of a source text: its name and the modules it imports, or a text the generator refuses. */
  datatype Tree = Good(name: string, imported: seq<string>) | Bad

  /** What a source has for a name. */
  datatype Fetched = NotFound | Broken | Text(trees: seq<Tree>)

  type Source = string -> Fetched

  /** The modules taken from a text: those before the first refused one. */
  function Taken(trees: seq<Tree>): seq<Tree> {
    if trees == [] || trees[0].Bad? then [] else [trees[0]] + Taken(trees[1..])
  }

  predicate AllGood(trees: seq<Tree>) {
    forall i :: 0 <= i < |trees| ==> trees[i].Good?
  }

  /** What the sources yield for a name: the modules taken, whether a text was read to its end, and whether
      the name counts as failed then. */
  datatype Outcome = Outcome(taken: seq<Tree>, read: bool, failed: bool)

  /** The sources in turn, `failing` when an earlier one has noted an error; an error is withdrawn by the
      next module taken. */
  function VisitFrom(sources: seq<Source>, name: string, failing: bool): Outcome {
    if sources == [] then Outcome([], false, true)
    else match sources[0](name)
      case NotFound => VisitFrom(sources[1..], name, failing)
      case Broken => VisitFrom(sources[1..], name, true)
      case Text(trees) =>
        var taken := Taken(trees);
        if AllGood(trees) then Outcome(taken, true, failing && taken == [])
        else
          var rest := VisitFrom(sources[1..], name, true);
          Outcome(taken + rest.taken, rest.read, rest.failed)
  }

  function Visit(sources: seq<Source>, name: string): Outcome {
    VisitFrom(sources, name, false)
  }

  /** A text read to its end holds a module of the requested name. */
  ghost predicate NamesAgree(sources: seq<Source>) {
    forall i, name :: 0 <= i < |sources| && sources[i](name).Text? && AllGood(sources[i](name).trees) ==>
      exists j :: 0 <= j < |sources[i](name).trees| && sources[i](name).trees[j].name == name
  }

  /** Each text holds one module, of the requested name. */
  ghost predicate OneModulePerText(sources: seq<Source>) {
    forall i, name :: 0 <= i < |sources| && sources[i](name).Text? ==>
      var trees := sources[i](name).trees; |trees| == 1 && (trees[0].Good? ==> trees[0].name == name)
  }

  /** The finitely many names requests and imports can mention. */
  ghost predicate ClosedUnder(sources: seq<Source>, universe: set<string>) {
    forall name, t, m :: name in universe && t in Visit(sources, name).taken && t.Good? && m in t.imported ==>
      m in universe
  }

  /** `name` is a module that `from` yields, or an import of one. */
  ghost predicate LeadsTo(sources: seq<Source>, from: string, name: string) {
    exists t :: t in Visit(sources, from).taken && t.Good? && (name == t.name || name in t.imported)
  }

  /** The names within `k` steps of the request. */
  ghost predicate ReachedIn(sources: seq<Source>, requested: seq<string>, name: string, k: nat)
    decreases k
  {
    if k == 0 then name in requested
    else
      ReachedIn(sources, requested, name, k - 1)
      || exists from :: ReachedIn(sources, requested, from, k - 1) && LeadsTo(sources, from, name)
  }

  ghost predicate Reached(sources: seq<Source>, requested: seq<string>, name: string) {
    exists k: nat :: ReachedIn(sources, requested, name, k)
  }

  class MibCompiler {
    const sources: seq<Source>
    var parsedMibs: map<string, seq<string>>
    var failedMibs: set<string>
    var symbolTableMap: set<string>

    constructor (sources: seq<Source>)
      ensures this.sources == sources && parsedMibs == map[] && failedMibs == {} && symbolTableMap == {}
    {
      this.sources := sources;
      parsedMibs, failedMibs, symbolTableMap := map[], {}, {};
    }

    /** One text: modules are recorded until one is refused. */
    method TakeText(mibname: string, trees: seq<Tree>) returns (imported: seq<string>, finished: bool)
      modifies this`parsedMibs, this`failedMibs, this`symbolTableMap
      ensures finished == AllGood(trees)
      ensures parsedMibs == Recorded(old(parsedMibs), Taken(trees))
      ensures failedMibs == if Taken(trees) == [] then old(failedMibs) else old(failedMibs) - {mibname}
      ensures symbolTableMap == old(symbolTableMap) + Names(Taken(trees))
      ensures imported == Imports(Taken(trees))
    {
      imported, finished := [], true;
      ghost var start, failed, tables := parsedMibs, failedMibs, symbolTableMap;
      for i := 0 to |trees|
        invariant finished && imported == Imports(trees[..i])
        invariant AllGood(trees[..i])
        invariant parsedMibs == Recorded(start, trees[..i])
        invariant failedMibs == if i == 0 then failed else failed - {mibname}
        invariant symbolTableMap == tables + Names(trees[..i])
      {
        assert trees[..i + 1][..i] == trees[..i];
        match trees[i] {
          case Bad =>
            finished := false;
            TakenIsPrefix(trees, i);
            return;
          case Good(name, imports) =>
            symbolTableMap := symbolTableMap + {name};
            parsedMibs := parsedMibs[name := imports];
            failedMibs := failedMibs - {mibname};
            imported := imported + imports;
        }
      }
      assert trees[..|trees|] == trees;
      TakenIsPrefix(trees, |trees|);
    }

    /** One source for one name; an error is noted and the next source gets its turn. */
    method TrySource(mibname: string, source: Source) returns (imported: seq<string>, read: bool)
      modifies this
      ensures read == IsRead(source(mibname)) && imported == Imports(TakenFrom(source(mibname)))
      ensures State() == Attempted(old(State()), mibname, source(mibname))
    {
      imported, read := [], false;
      match source(mibname) {
        case NotFound =>
        case Broken =>
          failedMibs := failedMibs + {mibname};
        case Text(trees) =>
          ghost var failed := failedMibs;
          imported, read := TakeText(mibname, trees);
          if !read {
            failedMibs := failedMibs + {mibname};
            assert failed - {mibname} + {mibname} == failed + {mibname};
          }
      }
    }

    /** One name: the sources in turn, until one has a text that can be read to its end. */
    method TrySources(mibname: string) returns (imported: seq<string>)
      requires mibname !in failedMibs
      modifies this
      ensures State() == Turn(old(State()), sources, mibname)
      ensures imported == Imports(Visit(sources, mibname).taken)
    {
      imported := [];
      ghost var taken: seq<Tree> := [];
      ghost var start, failing := State(), false;
      VisitStart(sources, mibname);
      for i := 0 to |sources|
        invariant VisitedTo(sources, mibname, i, taken, failing)
        invariant State() == Tried(start, mibname, taken, failing)
        invariant imported == Imports(taken)
      {
        ghost var more := TakenFrom(sources[i](mibname));
        VisitNext(sources, mibname, i, taken, failing);
        AttemptedAfter(start, mibname, taken, failing, sources[i](mibname));
        RecordedAppend(start.parsed, taken, more);
        taken, failing := taken + more, FailingAfter(failing, sources[i](mibname));
        var names, read := TrySource(mibname, sources[i]);
        imported := imported + names;
        if read {
          return;
        }
      }
      assert sources[|sources|..] == [] && taken + [] == taken;
      failedMibs := failedMibs + {mibname};
    }

    function State(): Progress
      reads this
    {
      Progress(parsedMibs, failedMibs, symbolTableMap)
    }

    /** The parse loop, wherever it ends; `steps` is the number of names it takes from the queue. */
    method Compile(mibnames: seq<string>, ghost steps: nat)
      requires State() == START && After(sources, Loop(START, mibnames), steps).queue == []
      modifies this
      ensures State() == After(sources, Loop(START, mibnames), steps).progress
    {
      var mibsToParse := mibnames;
      ghost var left := steps;
      while mibsToParse != []
        invariant After(sources, Loop(State(), mibsToParse), left) == After(sources, Loop(START, mibnames), steps)
        decreases left
      {
        var mibname := mibsToParse[0];
        mibsToParse := mibsToParse[1..];
        left := left - 1;
        if mibname in parsedMibs {
          continue;
        }
        if mibname in failedMibs {
          continue;
        }
        var imported := TrySources(mibname);
        mibsToParse := mibsToParse + imported;
      }
      EmptyStays(sources, Loop(State(), []), left);
    }
  }

  datatype Progress = Progress(parsed: map<string, seq<string>>, failed: set<string>, tables: set<string>)

  predicate Done(s: Progress, name: string) {
    name in s.parsed || name in s.failed
  }

  /** The state after one name that was not done. */
  function Turn(s: Progress, sources: seq<Source>, name: string): Progress {
    var v := Visit(sources, name);
    Tried(s, name, v.taken, v.failed)
  }

  function Tried(s: Progress, name: string, taken: seq<Tree>, failing: bool): Progress {
    Progress(Recorded(s.parsed, taken), if failing then s.failed + {name} else s.failed, s.tables + Names(taken))
  }

  predicate IsRead(fetched: Fetched) {
    fetched.Text? && AllGood(fetched.trees)
  }

  function FailingAfter(failing: bool, fetched: Fetched): bool {
    if IsRead(fetched) then failing && Taken(fetched.trees) == [] else failing || fetched != NotFound
  }

  /** The effect of one source: a module taken withdraws the error, a text not read to its end notes one. */
  function Attempted(s: Progress, name: string, fetched: Fetched): Progress {
    var taken := TakenFrom(fetched);
    var withdrawn := if taken == [] then s.failed else s.failed - {name};
    Progress(Recorded(s.parsed, taken),
             if IsRead(fetched) || fetched == NotFound then withdrawn else withdrawn + {name},
             s.tables + Names(taken))
  }

  lemma AttemptedAfter(start: Progress, name: string, taken: seq<Tree>, failing: bool, fetched: Fetched)
    requires name !in start.failed
    ensures Attempted(Tried(start, name, taken, failing), name, fetched) ==
      Tried(start, name, taken + TakenFrom(fetched), FailingAfter(failing, fetched))
  {
    RecordedAppend(start.parsed, taken, TakenFrom(fetched));
    NamesAppend(taken, TakenFrom(fetched));
    assert taken + [] == taken;
  }

  const START := Progress(map[], {}, {})

  /** The loop between two names. */
  datatype Loop = Loop(progress: Progress, queue: seq<string>)

  function Next(sources: seq<Source>, c: Loop): Loop {
    if c.queue == [] then c
    else
      var name, rest := c.queue[0], c.queue[1..];
      if Done(c.progress, name) then Loop(c.progress, rest)
      else Loop(Turn(c.progress, sources, name), rest + Imports(Visit(sources, name).taken))
  }

  function After(sources: seq<Source>, c: Loop, n: nat): Loop
    decreases n
  {
    if n == 0 then c else After(sources, Next(sources, c), n - 1)
  }

  ghost predicate Ends(sources: seq<Source>, c: Loop) {
    exists n: nat :: After(sources, c, n).queue == []
  }

  lemma {:induction false} EmptyStays(sources: seq<Source>, c: Loop, n: nat)
    requires c.queue == []
    ensures After(sources, c, n) == c
  {
    if n > 0 {
      EmptyStays(sources, c, n - 1);
    }
  }

  lemma {:induction false} AfterPlus(sources: seq<Source>, c: Loop, a: nat, b: nat)
    ensures After(sources, c, a + b) == After(sources, After(sources, c, a), b)
    decreases a
  {
    if a > 0 {
      AfterPlus(sources, Next(sources, c), a - 1, b);
    }
  }

  /** What holds between two names taken from the queue; at the end the queue is empty. */
  ghost predicate Consistent(s: Progress, sources: seq<Source>, requested: seq<string>, queue: seq<string>) {
    && (forall n :: n in queue || Done(s, n) ==> Reached(sources, requested, n))
    && (forall n :: n in requested ==> Done(s, n) || n in queue)
    && (forall p, n :: p in s.parsed && n in s.parsed[p] ==> Done(s, n) || n in queue)
    && s.tables == s.parsed.Keys
    && (OneModulePerText(sources) ==> Exact(s, sources))
  }

  /** A module is recorded as its own text says, a failed name has no text that can be read. */
  ghost predicate Exact(s: Progress, sources: seq<Source>) {
    && (forall p :: p in s.parsed ==> Visit(sources, p) == Outcome([Good(p, s.parsed[p])], true, false))
    && (forall f :: f in s.failed ==> Visit(sources, f) == Outcome([], false, true))
  }

  lemma DropDone(s: Progress, sources: seq<Source>, requested: seq<string>, queue: seq<string>)
    requires Consistent(s, sources, requested, queue) && queue != [] && Done(s, queue[0])
    ensures Consistent(s, sources, requested, queue[1..])
  {
  }

  lemma TurnDoes(s: Progress, sources: seq<Source>, name: string)
    requires NamesAgree(sources)
    ensures var t := Turn(s, sources, name);
      && t.parsed.Keys == s.parsed.Keys + Names(Visit(sources, name).taken) && s.failed <= t.failed <= s.failed + {name}
      && Done(t, name)
  {
    RecordedModules(s.parsed, Visit(sources, name).taken);
    VisitedIsRecorded(sources, name, false);
  }

  lemma TurnReaches(s: Progress, sources: seq<Source>, requested: seq<string>, name: string)
    requires NamesAgree(sources) && Reached(sources, requested, name)
    requires forall n :: Done(s, n) ==> Reached(sources, requested, n)
    ensures forall n :: Done(Turn(s, sources, name), n) ==> Reached(sources, requested, n)
    ensures forall n :: n in Imports(Visit(sources, name).taken) ==> Reached(sources, requested, n)
  {
    TurnDoes(s, sources, name);
    TakenModules(sources, requested, name);
    RecordedModules(s.parsed, Visit(sources, name).taken);
  }

  lemma TurnQueuesImports(s: Progress, sources: seq<Source>, name: string, p: string, n: string)
    requires p in Turn(s, sources, name).parsed && n in Turn(s, sources, name).parsed[p]
    ensures (p in s.parsed && n in s.parsed[p]) || n in Imports(Visit(sources, name).taken)
  {
    RecordedModules(s.parsed, Visit(sources, name).taken);
  }

  lemma RecordedOne(parsed: map<string, seq<string>>, t: Tree)
    requires t.Good?
    ensures Recorded(parsed, [t]) == parsed[t.name := t.imported] && Recorded(parsed, []) == parsed
    ensures Imports([t]) == t.imported
  {
  }

  lemma ExactWith(s: Progress, sources: seq<Source>, t: Progress, name: string, imported: seq<string>)
    requires Exact(s, sources) && Visit(sources, name) == Outcome([Good(name, imported)], true, false)
    requires t.parsed == s.parsed[name := imported] && t.failed == s.failed
    ensures Exact(t, sources)
  {
  }

  lemma TurnIsExact(s: Progress, sources: seq<Source>, name: string)
    requires NamesAgree(sources) && OneModulePerText(sources) && Exact(s, sources) && !Done(s, name)
    ensures Exact(Turn(s, sources, name), sources)
  {
    VisitedIsRecorded(sources, name, false);
    var Outcome(taken, read, failed) := Visit(sources, name);
    if read {
      assert taken == [taken[0]];
      RecordedOne(s.parsed, taken[0]);
      ExactWith(s, sources, Turn(s, sources, name), name, taken[0].imported);
    } else {
      assert Recorded(s.parsed, []) == s.parsed;
    }
  }

  lemma TurnKeepsConsistent(s: Progress, sources: seq<Source>, requested: seq<string>, queue: seq<string>)
    requires NamesAgree(sources) && Consistent(s, sources, requested, queue) && queue != [] && !Done(s, queue[0])
    ensures Consistent(Turn(s, sources, queue[0]), sources, requested,
                       queue[1..] + Imports(Visit(sources, queue[0]).taken))
  {
    var name, t := queue[0], Turn(s, sources, queue[0]);
    var next := queue[1..] + Imports(Visit(sources, name).taken);
    assert queue == [name] + queue[1..];
    TurnDoes(s, sources, name);
    TurnReaches(s, sources, requested, name);
    forall p, n | p in t.parsed && n in t.parsed[p] ensures Done(t, n) || n in next {
      TurnQueuesImports(s, sources, name, p, n);
      assert n in queue ==> n == name || n in queue[1..];
    }
    if OneModulePerText(sources) {
      TurnIsExact(s, sources, name);
    }
  }

  function TakenFrom(fetched: Fetched): seq<Tree> {
    if fetched.Text? then Taken(fetched.trees) else []
  }

  /** The sources before `i` yielded `taken`, and none of them had a text that could be read. */
  predicate VisitedTo(sources: seq<Source>, name: string, i: nat, taken: seq<Tree>, failing: bool)
    requires i <= |sources|
  {
    var rest := VisitFrom(sources[i..], name, failing);
    Visit(sources, name) == rest.(taken := taken + rest.taken)
  }

  lemma VisitStart(sources: seq<Source>, name: string)
    ensures VisitedTo(sources, name, 0, [], false)
  {
    assert sources[0..] == sources && [] + Visit(sources, name).taken == Visit(sources, name).taken;
  }

  lemma VisitNext(sources: seq<Source>, name: string, i: nat, taken: seq<Tree>, failing: bool)
    requires i < |sources| && VisitedTo(sources, name, i, taken, failing)
    ensures var fetched := sources[i](name); var more := TakenFrom(fetched);
      if IsRead(fetched) then Visit(sources, name) == Outcome(taken + more, true, FailingAfter(failing, fetched))
      else VisitedTo(sources, name, i + 1, taken + more, FailingAfter(failing, fetched))
  {
    assert sources[i..][0] == sources[i] && sources[i..][1..] == sources[i + 1..];
    var more, rest := TakenFrom(sources[i](name)),
      VisitFrom(sources[i + 1..], name, FailingAfter(failing, sources[i](name))).taken;
    assert taken + (more + rest) == taken + more + rest;
    assert taken + [] == taken;
  }

  /** parsedMibs after recording modules; a module read again is recorded again. */
  function Recorded(parsed: map<string, seq<string>>, trees: seq<Tree>): map<string, seq<string>> {
    if trees == [] then parsed else
    var n := |trees| - 1;
    var before := Recorded(parsed, trees[..n]);
    if trees[n].Good? then before[trees[n].name := trees[n].imported] else before
  }

  function Names(trees: seq<Tree>): set<string> {
    set t | t in trees && t.Good? :: t.name
  }

  function Imports(trees: seq<Tree>): seq<string> {
    if trees == [] then [] else
    var n := |trees| - 1;
    Imports(trees[..n]) + if trees[n].Good? then trees[n].imported else []
  }

  lemma {:induction false} TakenIsPrefix(trees: seq<Tree>, i: nat)
    requires i <= |trees| && AllGood(trees[..i]) && (i < |trees| ==> trees[i].Bad?)
    ensures Taken(trees) == trees[..i]
  {
    if i > 0 {
      assert trees[..i][0] == trees[0];
      assert trees[1..][..i - 1] == trees[..i][1..];
      TakenIsPrefix(trees[1..], i - 1);
    }
  }

  lemma {:induction false} RecordedAppend(parsed: map<string, seq<string>>, a: seq<Tree>, b: seq<Tree>)
    ensures Recorded(parsed, a + b) == Recorded(Recorded(parsed, a), b)
    ensures Imports(a + b) == Imports(a) + Imports(b)
  {
    if b == [] {
      assert a + b == a;
    } else {
      var n := |b| - 1;
      assert (a + b)[..|a + b| - 1] == a + b[..n] && (a + b)[|a + b| - 1] == b[n];
      RecordedAppend(parsed, a, b[..n]);
    }
  }

  lemma NamesAppend(a: seq<Tree>, b: seq<Tree>)
    ensures Names(a + b) == Names(a) + Names(b)
  {
  }

  lemma {:induction false} RecordedModules(parsed: map<string, seq<string>>, trees: seq<Tree>)
    ensures Recorded(parsed, trees).Keys == parsed.Keys + Names(trees)
    ensures forall p :: p in Recorded(parsed, trees) ==>
      (p in parsed && Recorded(parsed, trees)[p] == parsed[p]) || Good(p, Recorded(parsed, trees)[p]) in trees
    ensures forall t, n :: t in trees && t.Good? && n in t.imported ==> n in Imports(trees)
    ensures forall n :: n in Imports(trees) ==> exists t :: t in trees && t.Good? && n in t.imported
  {
    if trees != [] {
      var n := |trees| - 1;
      RecordedModules(parsed, trees[..n]);
      assert trees == trees[..n] + [trees[n]];
      assert forall t :: t in trees <==> t in trees[..n] || t == trees[n];
    }
  }

  lemma TakenModules(sources: seq<Source>, requested: seq<string>, from: string)
    requires Reached(sources, requested, from)
    ensures forall t :: t in Visit(sources, from).taken && t.Good? ==>
      Reached(sources, requested, t.name) && forall n :: n in t.imported ==> Reached(sources, requested, n)
  {
    var k: nat :| ReachedIn(sources, requested, from, k);
    forall n | LeadsTo(sources, from, n) ensures Reached(sources, requested, n) {
      assert ReachedIn(sources, requested, n, k + 1);
    }
  }

  /** With agreeing names a name is recorded as parsed when one of its texts was read to the end. */
  lemma {:induction false} VisitedIsRecorded(sources: seq<Source>, name: string, failing: bool)
    requires NamesAgree(sources)
    ensures var v := VisitFrom(sources, name, failing);
      && v.failed == !v.read && (v.read ==> name in Names(v.taken))
      && (OneModulePerText(sources) ==>
            if v.read then |v.taken| == 1 && v.taken[0].Good? && v.taken[0].name == name else v.taken == [])
  {
    if sources != [] {
      assert forall i, n :: 0 <= i < |sources[1..]| ==> sources[1..][i](n) == sources[i + 1](n);
      VisitedIsRecorded(sources[1..], name, failing);
      VisitedIsRecorded(sources[1..], name, true);
      if sources[0](name).Text? {
        AgreeingText(sources, name);
      }
    }
  }

  /** What is taken before source `i`. */
  function TakenBefore(sources: seq<Source>, name: string, i: nat): seq<Tree>
    requires i <= |sources|
  {
    if i == 0 then [] else TakenBefore(sources, name, i - 1) + TakenFrom(sources[i - 1](name))
  }

  predicate NoneRead(sources: seq<Source>, name: string, i: nat)
    requires i <= |sources|
  {
    forall j :: 0 <= j < i ==> !IsRead(sources[j](name))
  }

  predicate SomeFailed(sources: seq<Source>, name: string, i: nat)
    requires i <= |sources|
  {
    exists j :: 0 <= j < i && sources[j](name) != NotFound
  }

  lemma {:induction false} VisitSoFar(sources: seq<Source>, name: string, i: nat)
    requires i <= |sources| && NoneRead(sources, name, i)
    ensures VisitedTo(sources, name, i, TakenBefore(sources, name, i), SomeFailed(sources, name, i))
  {
    if i == 0 {
      VisitStart(sources, name);
    } else {
      VisitSoFar(sources, name, i - 1);
      VisitNext(sources, name, i - 1, TakenBefore(sources, name, i - 1), SomeFailed(sources, name, i - 1));
    }
  }

  /** Every source has its turn up to the first that is read, and none after it. The name counts as failed
      when none is read, or when the text read is empty and an earlier source has failed. */
  lemma VisitExactly(sources: seq<Source>, name: string, i: nat)
    requires i <= |sources| && NoneRead(sources, name, i)
    ensures i < |sources| && IsRead(sources[i](name)) ==>
      Visit(sources, name) == Outcome(
        TakenBefore(sources, name, i + 1), true,
        Taken(sources[i](name).trees) == [] && SomeFailed(sources, name, i))
    ensures i == |sources| ==> Visit(sources, name) == Outcome(TakenBefore(sources, name, i), false, true)
  {
    VisitSoFar(sources, name, i);
    if i < |sources| {
      VisitNext(sources, name, i, TakenBefore(sources, name, i), SomeFailed(sources, name, i));
    } else {
      assert sources[i..] == [] && TakenBefore(sources, name, i) + [] == TakenBefore(sources, name, i);
    }
  }

  lemma AgreeingText(sources: seq<Source>, name: string)
    requires NamesAgree(sources) && sources != [] && sources[0](name).Text?
    ensures var trees := sources[0](name).trees;
      && (AllGood(trees) ==> Taken(trees) == trees && trees != [] && name in Names(trees))
      && (|trees| == 1 && !AllGood(trees) ==> Taken(trees) == [])
  {
    var trees := sources[0](name).trees;
    if AllGood(trees) {
      TakenIsPrefix(trees, |trees|);
      assert trees[..|trees|] == trees;
      var j :| 0 <= j < |trees| && trees[j].name == name;
      assert trees[j] in trees;
    }
  }

  // ----- the result

  lemma NextKeepsConsistent(sources: seq<Source>, requested: seq<string>, c: Loop)
    requires NamesAgree(sources) && Consistent(c.progress, sources, requested, c.queue)
    ensures Consistent(Next(sources, c).progress, sources, requested, Next(sources, c).queue)
  {
    if c.queue != [] {
      if Done(c.progress, c.queue[0]) {
        DropDone(c.progress, sources, requested, c.queue);
      } else {
        TurnKeepsConsistent(c.progress, sources, requested, c.queue);
      }
    }
  }

  lemma {:induction false} LoopKeepsConsistent(sources: seq<Source>, requested: seq<string>, c: Loop, n: nat)
    requires NamesAgree(sources) && Consistent(c.progress, sources, requested, c.queue)
    ensures Consistent(After(sources, c, n).progress, sources, requested, After(sources, c, n).queue)
    decreases n
  {
    if n > 0 {
      NextKeepsConsistent(sources, requested, c);
      LoopKeepsConsistent(sources, requested, Next(sources, c), n - 1);
    }
  }

  /** With agreeing names, what the loop leaves: requests and imports of parsed modules are parsed or
      failed, all parsed and failed names are reachable, and the tables are those of the parsed modules. */
  lemma CompiledIsConsistent(sources: seq<Source>, requested: seq<string>, n: nat)
    requires NamesAgree(sources) && After(sources, Loop(START, requested), n).queue == []
    ensures Consistent(After(sources, Loop(START, requested), n).progress, sources, requested, [])
  {
    forall name | name in requested ensures Reached(sources, requested, name) {
      assert ReachedIn(sources, requested, name, 0);
    }
    LoopKeepsConsistent(sources, requested, Loop(START, requested), n);
  }

  lemma {:induction false} ReachedAreDone(s: Progress, sources: seq<Source>, requested: seq<string>, name: string,
                                          k: nat)
    requires Consistent(s, sources, requested, []) && OneModulePerText(sources)
    requires ReachedIn(sources, requested, name, k)
    ensures Done(s, name)
    decreases k
  {
    if k > 0 {
      if ReachedIn(sources, requested, name, k - 1) {
        ReachedAreDone(s, sources, requested, name, k - 1);
      } else {
        var from :| ReachedIn(sources, requested, from, k - 1) && LeadsTo(sources, from, name);
        ReachedAreDone(s, sources, requested, from, k - 1);
      }
    }
  }

  /** When each text holds one module of the requested name, the parsed and failed names are exactly
      those reachable from the request through the imports of parsed modules, and a reachable name is
      parsed exactly when some source has a text for it that can be read, before any other. */
  lemma ParsedAndFailedAreReached(s: Progress, sources: seq<Source>, requested: seq<string>, name: string)
    requires Consistent(s, sources, requested, []) && OneModulePerText(sources)
    ensures name in s.parsed <==> Reached(sources, requested, name) && Visit(sources, name).read
    ensures name in s.failed <==> Reached(sources, requested, name) && !Visit(sources, name).read
    ensures name in s.parsed ==> Visit(sources, name).taken == [Good(name, s.parsed[name])]
  {
    if Reached(sources, requested, name) {
      var k: nat :| ReachedIn(sources, requested, name, k);
      ReachedAreDone(s, sources, requested, name, k);
    }
  }
}
