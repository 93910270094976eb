/** When the parse loop ends. */
module ParseTermination {
  import opened Pigeonhole
  import opened ParseWorklist

  function ImportsOf(sources: seq<Source>, name: string): seq<string> {
    Imports(Visit(sources, name).taken)
  }

  /** `name` is in the queue at some time. */
  ghost predicate Met(sources: seq<Source>, c: Loop, name: string) {
    exists n: nat :: name in After(sources, c, n).queue
  }

  ghost predicate NeverDone(sources: seq<Source>, c: Loop, name: string) {
    forall n: nat :: !Done(After(sources, c, n).progress, name)
  }

  /** Each name imports the next. */
  predicate ImportsAlong(sources: seq<Source>, path: seq<string>) {
    forall i :: 0 < i < |path| ==> path[i] in ImportsOf(sources, path[i - 1])
  }

  predicate IsCircle(path: seq<string>) {
    |path| > 1 && path[0] == path[|path| - 1]
  }

  /** Names the loop meets and never finishes, importing each other in a circle. */
  ghost predicate EndlessCircle(sources: seq<Source>, c: Loop, circle: seq<string>) {
    IsCircle(circle) && ImportsAlong(sources, circle) &&
    forall i :: 0 <= i < |circle| ==> Met(sources, c, circle[i]) && NeverDone(sources, c, circle[i])
  }

  // ----- a circle keeps the queue filled

  lemma {:induction false} DoneStays(sources: seq<Source>, c: Loop, n: nat, name: string)
    requires Done(c.progress, name)
    ensures Done(After(sources, c, n).progress, name)
    decreases n
  {
    if n > 0 {
      if c.queue != [] {
        RecordedModules(c.progress.parsed, Visit(sources, c.queue[0]).taken);
      }
      DoneStays(sources, Next(sources, c), n - 1, name);
    }
  }

  lemma NeverDoneNext(sources: seq<Source>, c: Loop, name: string)
    requires NeverDone(sources, c, name)
    ensures !Done(c.progress, name) && NeverDone(sources, Next(sources, c), name)
  {
    assert After(sources, c, 0) == c;
    forall n: nat ensures !Done(After(sources, Next(sources, c), n).progress, name) {
      assert After(sources, c, n + 1) == After(sources, Next(sources, c), n);
    }
  }

  ghost predicate SomeQueued(circle: seq<string>, queue: seq<string>) {
    exists i :: 0 <= i < |circle| && circle[i] in queue
  }

  lemma CircleStaysQueued(sources: seq<Source>, c: Loop, circle: seq<string>)
    requires IsCircle(circle) && ImportsAlong(sources, circle) && SomeQueued(circle, c.queue)
    requires forall i :: 0 <= i < |circle| ==> !Done(c.progress, circle[i])
    ensures SomeQueued(circle, Next(sources, c).queue)
  {
    var i :| 0 <= i < |circle| && circle[i] in c.queue;
    assert c.queue == [c.queue[0]] + c.queue[1..];
    if circle[i] == c.queue[0] {
      var j := if i + 1 < |circle| then i + 1 else 1;
      assert circle[j - 1] == circle[i] && circle[j] in ImportsOf(sources, circle[i]);
      assert circle[j] in Next(sources, c).queue;
    } else {
      assert circle[i] in Next(sources, c).queue;
    }
  }

  lemma {:induction false} CircleKeepsQueue(sources: seq<Source>, c: Loop, circle: seq<string>, n: nat)
    requires IsCircle(circle) && ImportsAlong(sources, circle) && SomeQueued(circle, c.queue)
    requires forall i :: 0 <= i < |circle| ==> NeverDone(sources, c, circle[i])
    ensures After(sources, c, n).queue != []
    decreases n
  {
    if n > 0 {
      forall i | 0 <= i < |circle|
        ensures !Done(c.progress, circle[i]) && NeverDone(sources, Next(sources, c), circle[i])
      {
        NeverDoneNext(sources, c, circle[i]);
      }
      CircleStaysQueued(sources, c, circle);
      CircleKeepsQueue(sources, Next(sources, c), circle, n - 1);
    }
  }

  lemma NeverDoneAfter(sources: seq<Source>, c: Loop, n: nat, name: string)
    ensures NeverDone(sources, c, name) <==> NeverDone(sources, After(sources, c, n), name)
  {
    if NeverDone(sources, c, name) {
      forall k: nat ensures !Done(After(sources, After(sources, c, n), k).progress, name) {
        AfterPlus(sources, c, n, k);
      }
    }
    if NeverDone(sources, After(sources, c, n), name) {
      forall k: nat ensures !Done(After(sources, c, k).progress, name) {
        if Done(After(sources, c, k).progress, name) {
          DoneStays(sources, After(sources, c, k), n, name);
          AfterPlus(sources, c, k, n);
          AfterPlus(sources, c, n, k);
        }
      }
    }
  }

  lemma CircleNeverEnds(sources: seq<Source>, c: Loop, circle: seq<string>)
    requires EndlessCircle(sources, c, circle)
    ensures !Ends(sources, c)
  {
    var n: nat :| circle[0] in After(sources, c, n).queue;
    forall e: nat ensures After(sources, c, e).queue != [] {
      if e < n {
        AfterPlus(sources, c, e, n - e);
        if After(sources, c, e).queue == [] {
          EmptyStays(sources, After(sources, c, e), n - e);
        }
      } else {
        forall i | 0 <= i < |circle| ensures NeverDone(sources, After(sources, c, n), circle[i]) {
          NeverDoneAfter(sources, c, n, circle[i]);
        }
        CircleKeepsQueue(sources, After(sources, c, n), circle, e - n);
        AfterPlus(sources, c, n, e - n);
      }
    }
  }

  // ----- without a circle the queue runs empty

  predicate AllIn(queue: seq<string>, universe: set<string>) {
    forall i :: 0 <= i < |queue| ==> queue[i] in universe
  }

  lemma ImportsInUniverse(sources: seq<Source>, universe: set<string>, name: string)
    requires ClosedUnder(sources, universe) && name in universe
    ensures AllIn(ImportsOf(sources, name), universe)
  {
    RecordedModules(map[], Visit(sources, name).taken);
    forall n | n in ImportsOf(sources, name) ensures n in universe {
      var t :| t in Visit(sources, name).taken && t.Good? && n in t.imported;
    }
  }

  lemma {:induction false} QueueInUniverse(sources: seq<Source>, c: Loop, universe: set<string>, n: nat)
    requires ClosedUnder(sources, universe) && AllIn(c.queue, universe)
    ensures AllIn(After(sources, c, n).queue, universe)
    decreases n
  {
    if n > 0 {
      if c.queue != [] {
        ImportsInUniverse(sources, universe, c.queue[0]);
      }
      QueueInUniverse(sources, Next(sources, c), universe, n - 1);
    }
  }

  /** The names of the universe that are done now are all that ever will be. */
  ghost predicate Settled(sources: seq<Source>, c: Loop, universe: set<string>, done: set<string>) {
    forall n: nat, name :: name in universe ==> (Done(After(sources, c, n).progress, name) <==> name in done)
  }

  lemma SettledAfter(sources: seq<Source>, c: Loop, universe: set<string>, done: set<string>, n: nat)
    requires Settled(sources, c, universe, done)
    ensures Settled(sources, After(sources, c, n), universe, done)
  {
    forall k: nat, name | name in universe
      ensures Done(After(sources, After(sources, c, n), k).progress, name) <==> name in done
    {
      AfterPlus(sources, c, n, k);
    }
  }

  /** What a queue puts on the queue. */
  function Generation(sources: seq<Source>, done: set<string>, queue: seq<string>): seq<string> {
    if queue == [] then []
    else (if queue[0] in done then [] else ImportsOf(sources, queue[0])) + Generation(sources, done, queue[1..])
  }

  lemma OneTaken(sources: seq<Source>, c: Loop, done: set<string>, a: seq<string>, b: seq<string>)
    returns (own: seq<string>)
    requires a != [] && c.queue == a + b && (Done(c.progress, a[0]) <==> a[0] in done)
    ensures Next(sources, c).queue == a[1..] + (b + own)
    ensures b + own + Generation(sources, done, a[1..]) == b + Generation(sources, done, a)
  {
    own := if a[0] in done then [] else ImportsOf(sources, a[0]);
    assert c.queue[0] == a[0] && c.queue[1..] == a[1..] + b;
    assert a[1..] + b + own == a[1..] + (b + own);
    assert Generation(sources, done, a) == own + Generation(sources, done, a[1..]);
  }

  /** Once all of the queue has been taken, it holds the next generation. */
  lemma {:induction false} NextGeneration(sources: seq<Source>, c: Loop, universe: set<string>, done: set<string>,
                                          a: seq<string>, b: seq<string>)
    requires ClosedUnder(sources, universe) && Settled(sources, c, universe, done)
    requires c.queue == a + b && AllIn(c.queue, universe)
    ensures After(sources, c, |a|).queue == b + Generation(sources, done, a)
    decreases |a|
  {
    if a == [] {
      assert a + b == b + [];
    } else {
      assert c.queue[0] == a[0] && After(sources, c, 0) == c;
      var own := OneTaken(sources, c, done, a, b);
      QueueInUniverse(sources, c, universe, 1);
      assert After(sources, c, 1) == After(sources, Next(sources, c), 0) == Next(sources, c);
      SettledAfter(sources, c, universe, done, 1);
      NextGeneration(sources, Next(sources, c), universe, done, a[1..], b + own);
    }
  }

  lemma WholeQueue(sources: seq<Source>, c: Loop, universe: set<string>, done: set<string>)
    requires ClosedUnder(sources, universe) && Settled(sources, c, universe, done) && AllIn(c.queue, universe)
    ensures After(sources, c, |c.queue|).queue == Generation(sources, done, c.queue)
  {
    assert c.queue == c.queue + [];
    NextGeneration(sources, c, universe, done, c.queue, []);
    assert [] + Generation(sources, done, c.queue) == Generation(sources, done, c.queue);
  }

  ghost predicate QueueAtSomeTime(sources: seq<Source>, c: Loop, queue: seq<string>) {
    exists n: nat :: After(sources, c, n).queue == queue
  }

  lemma NextQueue(sources: seq<Source>, c: Loop, universe: set<string>, done: set<string>, queue: seq<string>)
    requires ClosedUnder(sources, universe) && Settled(sources, c, universe, done) && AllIn(c.queue, universe)
    requires QueueAtSomeTime(sources, c, queue)
    ensures QueueAtSomeTime(sources, c, Generation(sources, done, queue))
  {
    var m: nat :| After(sources, c, m).queue == queue;
    var d := After(sources, c, m);
    SettledAfter(sources, c, universe, done, m);
    QueueInUniverse(sources, c, universe, m);
    WholeQueue(sources, d, universe, done);
    AfterPlus(sources, c, m, |d.queue|);
    assert After(sources, c, m + |d.queue|).queue == Generation(sources, done, queue);
  }

  /** A name the run meets and never finishes. */
  ghost predicate Open(sources: seq<Source>, c: Loop, universe: set<string>, name: string) {
    name in universe && Met(sources, c, name) && NeverDone(sources, c, name)
  }

  lemma QueuedIsOpen(sources: seq<Source>, c: Loop, universe: set<string>, done: set<string>, queue: seq<string>,
                     name: string)
    requires ClosedUnder(sources, universe) && Settled(sources, c, universe, done) && AllIn(c.queue, universe)
    requires QueueAtSomeTime(sources, c, queue) && name in queue && name !in done
    ensures Open(sources, c, universe, name)
  {
    var n: nat :| After(sources, c, n).queue == queue;
    QueueInUniverse(sources, c, universe, n);
    var i :| 0 <= i < |queue| && queue[i] == name;
  }

  /** Queues that follow each other, with nothing open but open names of the run. */
  ghost predicate OpenGenerations(sources: seq<Source>, c: Loop, universe: set<string>, done: set<string>,
                                  gens: seq<seq<string>>) {
    && (forall i :: 0 < i < |gens| ==> gens[i] == Generation(sources, done, gens[i - 1]))
    && (forall i, name :: 0 <= i < |gens| && name in gens[i] && name !in done ==> Open(sources, c, universe, name))
  }

  lemma OneMoreGeneration(sources: seq<Source>, c: Loop, universe: set<string>, done: set<string>,
                          gens: seq<seq<string>>,
                          queue: seq<string>)
    requires OpenGenerations(sources, c, universe, done, gens)
    requires gens != [] ==> queue == Generation(sources, done, gens[|gens| - 1])
    requires forall name :: name in queue && name !in done ==> Open(sources, c, universe, name)
    ensures OpenGenerations(sources, c, universe, done, gens + [queue])
  {
  }

  lemma {:induction false} TheGenerations(sources: seq<Source>, c: Loop, universe: set<string>, done: set<string>,
                                          k: nat)
    returns (gens: seq<seq<string>>)
    requires ClosedUnder(sources, universe) && Settled(sources, c, universe, done) && AllIn(c.queue, universe)
    ensures |gens| == k + 1 && OpenGenerations(sources, c, universe, done, gens) && QueueAtSomeTime(sources, c, gens[k])
  {
    var before: seq<seq<string>>, queue := [], c.queue;
    if k == 0 {
      assert After(sources, c, 0) == c;
    } else {
      before := TheGenerations(sources, c, universe, done, k - 1);
      queue := Generation(sources, done, before[k - 1]);
      NextQueue(sources, c, universe, done, before[k - 1]);
    }
    forall name | name in queue && name !in done ensures Open(sources, c, universe, name) {
      QueuedIsOpen(sources, c, universe, done, queue, name);
    }
    OneMoreGeneration(sources, c, universe, done, before, queue);
    gens := before + [queue];
  }

  lemma {:induction false} GenerationHas(sources: seq<Source>, done: set<string>, queue: seq<string>, name: string)
    returns (from: string)
    requires name in Generation(sources, done, queue)
    ensures from in queue && from !in done && name in ImportsOf(sources, from)
  {
    from := queue[0];
    if from in done || name !in ImportsOf(sources, from) {
      from := GenerationHas(sources, done, queue[1..], name);
    }
  }

  /** Open names, each importing the next. */
  ghost predicate OpenPath(sources: seq<Source>, c: Loop, universe: set<string>, path: seq<string>) {
    ImportsAlong(sources, path) && forall i :: 0 <= i < |path| ==> Open(sources, c, universe, path[i])
  }

  lemma OneMore(sources: seq<Source>, c: Loop, universe: set<string>, path: seq<string>, name: string)
    requires OpenPath(sources, c, universe, path) && Open(sources, c, universe, name)
    requires path != [] ==> name in ImportsOf(sources, path[|path| - 1])
    ensures OpenPath(sources, c, universe, path + [name])
  {
  }

  /** A name of the `k`-th generation has a chain of `k` importers. */
  lemma {:induction false} Importers(sources: seq<Source>, c: Loop, universe: set<string>, done: set<string>,
                                     gens: seq<seq<string>>, k: nat, name: string)
    returns (path: seq<string>)
    requires OpenGenerations(sources, c, universe, done, gens) && k < |gens| && name in gens[k]
    ensures |path| == k && OpenPath(sources, c, universe, path)
    ensures path != [] ==> name in ImportsOf(sources, path[|path| - 1])
  {
    path := [];
    if k > 0 {
      var from := GenerationHas(sources, done, gens[k - 1], name);
      var before := Importers(sources, c, universe, done, gens, k - 1, from);
      OneMore(sources, c, universe, before, from);
      path := before + [from];
    }
  }

  lemma RepeatIsCircle(sources: seq<Source>, c: Loop, universe: set<string>, path: seq<string>)
    returns (circle: seq<string>)
    requires OpenPath(sources, c, universe, path) && |path| > |universe|
    ensures EndlessCircle(sources, c, circle)
  {
    LongSequenceRepeats(path, universe);
    var i, j :| 0 <= i < j < |path| && path[i] == path[j];
    circle := path[i..j + 1];
  }

  lemma SettledEnds(sources: seq<Source>, c: Loop, universe: set<string>, done: set<string>)
    returns (circle: seq<string>)
    requires ClosedUnder(sources, universe) && AllIn(c.queue, universe) && Settled(sources, c, universe, done)
    ensures Ends(sources, c) || EndlessCircle(sources, c, circle)
  {
    var k := |universe| + 1;
    var gens := TheGenerations(sources, c, universe, done, k);
    circle := [];
    if gens[k] != [] {
      var path := Importers(sources, c, universe, done, gens, k, gens[k][0]);
      circle := RepeatIsCircle(sources, c, universe, path);
    }
  }

  /** Either the loop ends or a circle keeps it going. */
  lemma {:induction false} EndsOrCircle(sources: seq<Source>, c: Loop, universe: set<string>, open: set<string>)
    returns (circle: seq<string>)
    requires ClosedUnder(sources, universe) && AllIn(c.queue, universe)
    requires open == set name | name in universe && !Done(c.progress, name)
    ensures Ends(sources, c) || EndlessCircle(sources, c, circle)
    decreases open
  {
    if n: nat, name :| name in open && Done(After(sources, c, n).progress, name) {
      var d := After(sources, c, n);
      forall x | x in universe && !Done(d.progress, x) ensures x in open {
        if Done(c.progress, x) {
          DoneStays(sources, c, n, x);
        }
      }
      QueueInUniverse(sources, c, universe, n);
      circle := EndsOrCircle(sources, d, universe, set x | x in universe && !Done(d.progress, x));
      FromLater(sources, c, n, circle);
    } else {
      forall n: nat, name | name in universe
        ensures Done(After(sources, c, n).progress, name) <==> name in universe - open
      {
        if Done(c.progress, name) {
          DoneStays(sources, c, n, name);
        }
      }
      circle := SettledEnds(sources, c, universe, universe - open);
    }
  }

  lemma FromLater(sources: seq<Source>, c: Loop, n: nat, circle: seq<string>)
    ensures Ends(sources, After(sources, c, n)) ==> Ends(sources, c)
    ensures EndlessCircle(sources, After(sources, c, n), circle) ==> EndlessCircle(sources, c, circle)
  {
    var d := After(sources, c, n);
    if Ends(sources, d) {
      var e: nat :| After(sources, d, e).queue == [];
      AfterPlus(sources, c, n, e);
    }
    if EndlessCircle(sources, d, circle) {
      forall i | 0 <= i < |circle| ensures Met(sources, c, circle[i]) && NeverDone(sources, c, circle[i]) {
        NeverDoneAfter(sources, c, n, circle[i]);
        var m: nat :| circle[i] in After(sources, d, m).queue;
        AfterPlus(sources, c, n, m);
      }
    }
  }

  /** The exact condition, for any texts under any names: the loop ends unless names it meets and never
      finishes import each other in a circle. */
  lemma LoopEndsExactly(sources: seq<Source>, c: Loop, universe: set<string>)
    requires ClosedUnder(sources, universe) && AllIn(c.queue, universe)
    ensures Ends(sources, c) <==> !exists circle :: EndlessCircle(sources, c, circle)
  {
    var circle := EndsOrCircle(sources, c, universe, set name | name in universe && !Done(c.progress, name));
    if x :| EndlessCircle(sources, c, x) {
      CircleNeverEnds(sources, c, x);
    }
  }

  // ----- what the texts say about it

  /** Names a request leads to, each asked for by name. */
  ghost predicate AskedIn(sources: seq<Source>, requested: seq<string>, name: string, k: nat)
    decreases k
  {
    if k == 0 then name in requested
    else exists from :: AskedIn(sources, requested, from, k - 1) && name in ImportsOf(sources, from)
  }

  ghost predicate Asked(sources: seq<Source>, requested: seq<string>, name: string) {
    exists k: nat :: AskedIn(sources, requested, name, k)
  }

  /** Reading the texts of an orphan neither records it nor fails it. */
  predicate Orphan(sources: seq<Source>, name: string) {
    !Visit(sources, name).failed && name !in Names(Visit(sources, name).taken)
  }

  /** Orphans that are asked for and import each other in a circle. */
  ghost predicate OrphanCircle(sources: seq<Source>, requested: seq<string>, circle: seq<string>) {
    IsCircle(circle) && ImportsAlong(sources, circle) &&
    forall i :: 0 <= i < |circle| ==> Asked(sources, requested, circle[i]) && Orphan(sources, circle[i])
  }

  /** A name that is asked for is recorded by no text but its own. */
  ghost predicate OwnTextsOnly(sources: seq<Source>, requested: seq<string>) {
    forall a, b | Asked(sources, requested, a) && Asked(sources, requested, b) ::
      b in Names(Visit(sources, a).taken) ==> a == b
  }

  lemma AskedNext(sources: seq<Source>, requested: seq<string>, from: string, name: string)
    requires Asked(sources, requested, from) && name in ImportsOf(sources, from)
    ensures Asked(sources, requested, name)
  {
    var k: nat :| AskedIn(sources, requested, from, k);
    assert AskedIn(sources, requested, name, k + 1);
  }

  ghost predicate AllAsked(sources: seq<Source>, requested: seq<string>, queue: seq<string>) {
    forall i :: 0 <= i < |queue| ==> Asked(sources, requested, queue[i])
  }

  lemma QueueStaysAsked(sources: seq<Source>, requested: seq<string>, c: Loop)
    requires AllAsked(sources, requested, c.queue)
    ensures AllAsked(sources, requested, Next(sources, c).queue)
  {
    if c.queue != [] {
      forall name | name in ImportsOf(sources, c.queue[0]) ensures Asked(sources, requested, name) {
        AskedNext(sources, requested, c.queue[0], name);
      }
    }
  }

  lemma {:induction false} QueueIsAsked(sources: seq<Source>, requested: seq<string>, c: Loop, n: nat)
    requires AllAsked(sources, requested, c.queue)
    ensures AllAsked(sources, requested, After(sources, c, n).queue)
    decreases n
  {
    if n > 0 {
      QueueStaysAsked(sources, requested, c);
      QueueIsAsked(sources, requested, Next(sources, c), n - 1);
    }
  }

  lemma RequestIsAsked(sources: seq<Source>, requested: seq<string>)
    ensures AllAsked(sources, requested, requested)
  {
    forall i | 0 <= i < |requested| ensures Asked(sources, requested, requested[i]) {
      assert AskedIn(sources, requested, requested[i], 0);
    }
  }

  /** The queue moves up. */
  lemma {:induction false} ComesUp(sources: seq<Source>, c: Loop, i: nat)
    requires i < |c.queue|
    ensures After(sources, c, i).queue != [] && After(sources, c, i).queue[0] == c.queue[i]
    decreases i
  {
    if i > 0 {
      assert Next(sources, c).queue[i - 1] == c.queue[i];
      ComesUp(sources, Next(sources, c), i - 1);
    }
  }

  lemma TurnComes(sources: seq<Source>, c: Loop, name: string) returns (n: nat)
    requires Met(sources, c, name)
    ensures After(sources, c, n).queue != [] && After(sources, c, n).queue[0] == name
  {
    var m: nat :| name in After(sources, c, m).queue;
    var d := After(sources, c, m);
    var i :| 0 <= i < |d.queue| && d.queue[i] == name;
    ComesUp(sources, d, i);
    AfterPlus(sources, c, m, i);
    n := m + i;
  }

  lemma AfterNext(sources: seq<Source>, c: Loop, n: nat)
    ensures After(sources, c, n + 1) == Next(sources, After(sources, c, n))
  {
    AfterPlus(sources, c, n, 1);
    var d := After(sources, c, n);
    assert After(sources, d, 1) == After(sources, Next(sources, d), 0);
  }

  lemma DoneNext(sources: seq<Source>, c: Loop, name: string)
    ensures Done(Next(sources, c).progress, name) <==>
      (|| Done(c.progress, name)
       || (c.queue != [] && !Done(c.progress, c.queue[0]) &&
           (name in Names(Visit(sources, c.queue[0]).taken) || (name == c.queue[0] && Visit(sources, name).failed))))
  {
    if c.queue != [] {
      RecordedModules(c.progress.parsed, Visit(sources, c.queue[0]).taken);
    }
  }

  lemma NeverDoneIsOrphan(sources: seq<Source>, c: Loop, name: string)
    requires Met(sources, c, name) && NeverDone(sources, c, name)
    ensures Orphan(sources, name)
  {
    var n := TurnComes(sources, c, name);
    DoneNext(sources, After(sources, c, n), name);
    AfterNext(sources, c, n);
    assert !Done(After(sources, c, n).progress, name) && !Done(After(sources, c, n + 1).progress, name);
  }

  /** For any sources: without a circle of orphans the request ends. */
  lemma RequestEnds(sources: seq<Source>, requested: seq<string>, universe: set<string>)
    requires ClosedUnder(sources, universe) && AllIn(requested, universe)
    requires !exists circle :: OrphanCircle(sources, requested, circle)
    ensures Ends(sources, Loop(START, requested))
  {
    var c := Loop(START, requested);
    LoopEndsExactly(sources, c, universe);
    if circle :| EndlessCircle(sources, c, circle) {
      RequestIsAsked(sources, requested);
      forall i | 0 <= i < |circle| ensures Asked(sources, requested, circle[i]) && Orphan(sources, circle[i]) {
        NeverDoneIsOrphan(sources, c, circle[i]);
        var n: nat :| circle[i] in After(sources, c, n).queue;
        QueueIsAsked(sources, requested, c, n);
      }
      assert OrphanCircle(sources, requested, circle);
    }
  }

  lemma {:induction false} OrphanStays(sources: seq<Source>, requested: seq<string>, c: Loop, name: string, n: nat)
    requires OwnTextsOnly(sources, requested) && AllAsked(sources, requested, c.queue)
    requires Asked(sources, requested, name) && Orphan(sources, name) && !Done(c.progress, name)
    ensures !Done(After(sources, c, n).progress, name)
    decreases n
  {
    if n > 0 {
      DoneNext(sources, c, name);
      QueueStaysAsked(sources, requested, c);
      OrphanStays(sources, requested, Next(sources, c), name, n - 1);
    }
  }

  lemma {:induction false} DoneWasVisited(sources: seq<Source>, requested: seq<string>, c: Loop, name: string, j: nat)
    returns (i: nat)
    requires OwnTextsOnly(sources, requested) && AllAsked(sources, requested, c.queue) &&
      Asked(sources, requested, name)
    requires !Done(c.progress, name) && Done(After(sources, c, j).progress, name)
    ensures i < j && After(sources, c, i).queue != [] && After(sources, c, i).queue[0] == name
    ensures !Done(After(sources, c, i).progress, name)
    decreases j
  {
    DoneNext(sources, c, name);
    if Done(Next(sources, c).progress, name) {
      i := 0;
    } else {
      QueueStaysAsked(sources, requested, c);
      var k := DoneWasVisited(sources, requested, Next(sources, c), name, j - 1);
      i := k + 1;
    }
  }

  lemma VisitedImportsAreMet(sources: seq<Source>, c: Loop, n: nat, from: string, name: string)
    requires var d := After(sources, c, n); d.queue != [] && d.queue[0] == from && !Done(d.progress, from)
    requires name in ImportsOf(sources, from)
    ensures Met(sources, c, name)
  {
    AfterNext(sources, c, n);
    assert name in After(sources, c, n + 1).queue;
  }

  lemma {:induction false} AskedIsMet(sources: seq<Source>, requested: seq<string>, name: string, k: nat)
    requires OwnTextsOnly(sources, requested) && AskedIn(sources, requested, name, k)
    ensures Met(sources, Loop(START, requested), name)
    decreases k
  {
    var c := Loop(START, requested);
    if k == 0 {
      assert name in After(sources, c, 0).queue;
    } else {
      var from :| AskedIn(sources, requested, from, k - 1) && name in ImportsOf(sources, from);
      AskedIsMet(sources, requested, from, k - 1);
      var n := TurnComes(sources, c, from);
      if Done(After(sources, c, n).progress, from) {
        RequestIsAsked(sources, requested);
        n := DoneWasVisited(sources, requested, c, from, n);
      }
      VisitedImportsAreMet(sources, c, n, from, name);
    }
  }

  /** When no name that is asked for is recorded by the text of another, the request ends exactly when no
      orphans that are asked for import each other in a circle. */
  lemma RequestEndsExactly(sources: seq<Source>, requested: seq<string>, universe: set<string>)
    requires ClosedUnder(sources, universe) && AllIn(requested, universe) && OwnTextsOnly(sources, requested)
    ensures Ends(sources, Loop(START, requested)) <==> !exists circle :: OrphanCircle(sources, requested, circle)
  {
    var c := Loop(START, requested);
    if circle :| OrphanCircle(sources, requested, circle) {
      RequestIsAsked(sources, requested);
      forall i | 0 <= i < |circle| ensures Met(sources, c, circle[i]) && NeverDone(sources, c, circle[i]) {
        var k: nat :| AskedIn(sources, requested, circle[i], k);
        AskedIsMet(sources, requested, circle[i], k);
        forall n: nat ensures !Done(After(sources, c, n).progress, circle[i]) {
          OrphanStays(sources, requested, c, circle[i], n);
        }
      }
      CircleNeverEnds(sources, c, circle);
    } else {
      RequestEnds(sources, requested, universe);
    }
  }

  /** With agreeing names there are no orphans, so every request ends. */
  lemma AgreeingNamesEnd(sources: seq<Source>, requested: seq<string>, universe: set<string>)
    requires ClosedUnder(sources, universe) && AllIn(requested, universe) && NamesAgree(sources)
    ensures Ends(sources, Loop(START, requested))
  {
    if circle :| OrphanCircle(sources, requested, circle) {
      VisitedIsRecorded(sources, circle[0], false);
      assert false;
    }
    RequestEnds(sources, requested, universe);
  }

  // ----- texts for the names of others

  /** The text for `a` holds module `b`; those for `b` and `e` hold `d`, which imports `e`. */
  function Crossed(a: string, b: string, d: string, e: string): Source {
    name => if name == a then Text([Good(b, [])]) else if name == b || name == e then Text([Good(d, [e])]) else NotFound
  }

  lemma CrossedVisits(a: string, b: string, d: string, e: string)
    requires a != b && a != e && b != e
    ensures var sources := [Crossed(a, b, d, e)];
      && Visit(sources, a) == Outcome([Good(b, [])], true, false)
      && Visit(sources, b) == Visit(sources, e) == Outcome([Good(d, [e])], true, false)
  {
    var ts, us := [Good(b, [])], [Good(d, [e])];
    TakenIsPrefix(ts, 1);
    TakenIsPrefix(us, 1);
    assert ts[..1] == ts && us[..1] == us;
  }

  /** When names are recorded by the texts of others, the order of the request alone can decide: no
      condition on what can be reached is exact. */
  lemma OrderDecides(a: string, b: string, d: string, e: string)
    requires a != b && a != d && a != e && b != d && b != e && d != e
    ensures Ends([Crossed(a, b, d, e)], Loop(START, [a, b])) && !Ends([Crossed(a, b, d, e)], Loop(START, [b, a]))
  {
    var sources := [Crossed(a, b, d, e)];
    CrossedVisits(a, b, d, e);
    RecordedOne(map[], Good(b, []));
    RecordedOne(map[], Good(d, [e]));
    var c1 := Next(sources, Loop(START, [a, b]));
    assert c1.queue == [b] && Done(c1.progress, b);
    assert After(sources, Loop(START, [a, b]), 2) == Next(sources, c1) by {
      assert After(sources, c1, 1) == After(sources, Next(sources, c1), 0);
    }
    assert Next(sources, c1).queue == [];
    CrossedNeverEnds(a, b, d, e);
  }

  lemma CrossedNeverEnds(a: string, b: string, d: string, e: string)
    requires a != b && a != d && a != e && b != d && b != e && d != e
    ensures !Ends([Crossed(a, b, d, e)], Loop(START, [b, a]))
  {
    var sources, c := [Crossed(a, b, d, e)], Loop(START, [b, a]);
    CrossedVisits(a, b, d, e);
    var c1 := Next(sources, c);
    assert c1.queue == [a, e] by {
      RecordedOne(map[], Good(d, [e]));
    }
    assert After(sources, c, 1) == After(sources, c1, 0) == c1;
    assert c1.queue[1] == e;
    forall n: nat ensures !Done(After(sources, c, n).progress, e) {
      CrossedNeverDone(a, b, d, e, c, n);
    }
    RecordedOne(map[], Good(d, [e]));
    var circle := [e, e];
    assert EndlessCircle(sources, c, circle);
    CircleNeverEnds(sources, c, circle);
  }

  lemma {:induction false} CrossedNeverDone(a: string, b: string, d: string, e: string, c: Loop, n: nat)
    requires a != b && a != d && a != e && b != d && b != e && d != e
    requires !Done(c.progress, e) && forall i :: 0 <= i < |c.queue| ==> c.queue[i] in {a, b, e}
    ensures !Done(After([Crossed(a, b, d, e)], c, n).progress, e)
    decreases n
  {
    if n > 0 {
      var sources := [Crossed(a, b, d, e)];
      CrossedVisits(a, b, d, e);
      DoneNext(sources, c, e);
      RecordedOne(map[], Good(d, [e]));
      RecordedOne(map[], Good(b, []));
      CrossedNeverDone(a, b, d, e, Next(sources, c), n - 1);
    }
  }
}
