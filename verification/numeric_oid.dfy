/** Expanding the names in an object identifier to numbers. */
module NumericOids {
  import opened Words
  import opened Pigeonhole

  /** A symbol and the module that defines it. */
  type Key = (string, string)

  datatype Part = Number(n: nat) | Ref(key: Key)

  /** Symbols by module, then by name, with their object identifier if they have one. */
  type Table = map<string, map<string, Option<seq<Part>>>>

  datatype OidError = NoModule | NoSymbol | NoOid

  datatype Expanded = Numbers(value: seq<nat>) | Failed(error: OidError)

  predicate HasOid(table: Table, k: Key) {
    k.1 in table && k.0 in table[k.1] && table[k.1][k.0].Some?
  }

  function OidAt(table: Table, k: Key): seq<Part>
    requires HasOid(table, k)
  {
    table[k.1][k.0].value
  }

  /** The expansion within `depth` nested calls, left to right; the first name that cannot be expanded is
      the error. None when the calls nest deeper. */
  function Expand(table: Table, oid: seq<Part>, depth: nat): Option<Expanded>
    decreases depth, |oid| + 1
  {
    if oid == [] then Some(Numbers([])) else
    var n := |oid| - 1;
    Then(Expand(table, oid[..n], depth), ExpandPart(table, oid[n], depth))
  }

  function Then(before: Option<Expanded>, last: Option<Expanded>): Option<Expanded> {
    match (before, last)
    case (Some(Numbers(x)), Some(Numbers(y))) => Some(Numbers(x + y))
    case (Some(Numbers(_)), other) => other
    case (other, _) => other
  }

  lemma ThenIsAssociative(x: Option<Expanded>, y: Option<Expanded>, z: Option<Expanded>)
    ensures Then(Then(x, y), z) == Then(x, Then(y, z))
    ensures Then(Some(Numbers([])), x) == x == Then(x, Some(Numbers([])))
  {
    assert forall a: seq<nat> :: [] + a == a == a + [];
    assert forall a, b, c: seq<nat> :: a + b + c == a + (b + c);
  }

  function ExpandPart(table: Table, part: Part, depth: nat): Option<Expanded>
    decreases depth, 0
  {
    match part
    case Number(n) => Some(Numbers([n]))
    case Ref(k) =>
      if k.0 == "iso" then Some(Numbers([1]))
      else if k.1 !in table then Some(Failed(NoModule))
      else if k.0 !in table[k.1] then Some(Failed(NoSymbol))
      else if table[k.1][k.0].None? then Some(Failed(NoOid))
      else if depth == 0 then None
      else Expand(table, OidAt(table, k), depth - 1)
  }

  /** Called wherever the calls end at all; `depth` is any bound on how deep they nest. */
  method GenNumericOid(table: Table, oid: seq<Part>, ghost depth: nat) returns (r: Expanded)
    requires Expand(table, oid, depth).Some?
    ensures Some(r) == Expand(table, oid, depth)
    decreases depth
  {
    var numericOid: seq<nat> := [];
    for i := 0 to |oid|
      invariant Expand(table, oid[..i], depth) == Some(Numbers(numericOid))
    {
      ExpandNext(table, oid, depth, i);
      PrefixDecides(table, oid, depth, i + 1);
      var error: Option<OidError> := None;
      match oid[i] {
        case Number(n) => numericOid := numericOid + [n];
        case Ref((parent, module_)) =>
          if parent == "iso" {
            numericOid := numericOid + [1];
          } else if module_ !in table {
            error := Some(NoModule);
          } else if parent !in table[module_] {
            error := Some(NoSymbol);
          } else if table[module_][parent].None? {
            error := Some(NoOid);
          } else {
            var inner := GenNumericOid(table, table[module_][parent].value, depth - 1);
            match inner {
              case Failed(e) => error := Some(e);
              case Numbers(value) => numericOid := numericOid + value;
            }
          }
      }
      if error.Some? {
        return Failed(error.value);
      }
    }
    assert oid[..|oid|] == oid;
    r := Numbers(numericOid);
  }

  lemma ExpandNext(table: Table, oid: seq<Part>, depth: nat, i: nat)
    requires i < |oid|
    ensures Expand(table, oid[..i + 1], depth) == Then(Expand(table, oid[..i], depth), ExpandPart(table, oid[i], depth))
  {
    assert oid[..i + 1][..i] == oid[..i];
  }

  /** A prefix that does not expand to numbers decides the whole. */
  lemma {:induction false} PrefixDecides(table: Table, oid: seq<Part>, depth: nat, i: nat)
    requires i <= |oid|
    ensures match Expand(table, oid[..i], depth)
      case Some(Numbers(_)) => true
      case other => Expand(table, oid, depth) == other
    decreases |oid|
  {
    if i == |oid| {
      assert oid[..i] == oid;
    } else {
      var n := |oid| - 1;
      assert oid[..n][..i] == oid[..i];
      PrefixDecides(table, oid[..n], depth, i);
    }
  }

  /** A deeper bound does not change an answer. */
  lemma {:induction false} Deeper(table: Table, oid: seq<Part>, depth: nat, more: nat)
    requires depth <= more && Expand(table, oid, depth).Some?
    ensures Expand(table, oid, more) == Expand(table, oid, depth)
    decreases depth, |oid|
  {
    if oid != [] {
      var n := |oid| - 1;
      PrefixDecides(table, oid, depth, n);
      Deeper(table, oid[..n], depth, more);
      if oid[n].Ref? && HasOid(table, oid[n].key) && oid[n].key.0 != "iso" &&
        Expand(table, oid[..n], depth).value.Numbers? {
        Deeper(table, OidAt(table, oid[n].key), depth - 1, more - 1);
      }
    }
  }

  // ----- when the expansion ends

  ghost predicate Finishes(table: Table, k: Key)
    requires HasOid(table, k)
  {
    exists depth: nat :: Expand(table, OidAt(table, k), depth).Some?
  }

  ghost predicate ExpandsToNumbers(table: Table, oid: seq<Part>) {
    exists depth: nat :: Expand(table, oid, depth).Some? && Expand(table, oid, depth).value.Numbers?
  }

  /** The expansion of `k` calls that of `l`: everything before the name `l` expands without error. */
  ghost predicate Calls(table: Table, k: Key, l: Key) {
    && HasOid(table, k) && HasOid(table, l) && l.0 != "iso"
    && var oid := OidAt(table, k);
       exists i :: 0 <= i < |oid| && oid[i] == Ref(l) && ExpandsToNumbers(table, oid[..i])
  }

  ghost predicate CallsAlong(table: Table, path: seq<Key>) {
    && (forall i :: 0 <= i < |path| ==> HasOid(table, path[i]))
    && (forall i :: 0 < i < |path| ==> Calls(table, path[i - 1], path[i]))
  }

  lemma CallIsShallower(table: Table, k: Key, l: Key, depth: nat)
    requires Calls(table, k, l) && Expand(table, OidAt(table, k), depth).Some?
    ensures depth > 0 && Expand(table, OidAt(table, l), depth - 1).Some?
  {
    var oid := OidAt(table, k);
    var i :| 0 <= i < |oid| && oid[i] == Ref(l) && ExpandsToNumbers(table, oid[..i]);
    var enough: nat :| Expand(table, oid[..i], enough).Some? && Expand(table, oid[..i], enough).value.Numbers?;
    PrefixDecides(table, oid, depth, i);
    if depth <= enough {
      Deeper(table, oid[..i], depth, enough);
    } else {
      Deeper(table, oid[..i], enough, depth);
    }
    PrefixDecides(table, oid, depth, i + 1);
    ExpandNext(table, oid, depth, i);
  }

  lemma {:induction false} CallsAreShallower(table: Table, path: seq<Key>, i: nat, depth: nat)
    requires CallsAlong(table, path) && i < |path| && Expand(table, OidAt(table, path[0]), depth).Some?
    ensures i <= depth && Expand(table, OidAt(table, path[i]), depth - i).Some?
  {
    if i > 0 {
      CallsAreShallower(table, path, i - 1, depth);
      CallIsShallower(table, path[i - 1], path[i], depth - (i - 1));
    }
  }

  /** On a circle of calls, however long, no depth is enough. */
  lemma {:induction false} CircleNeverFinishes(table: Table, path: seq<Key>, depth: nat)
    requires CallsAlong(table, path) && |path| > 1 && path[0] == path[|path| - 1]
    ensures Expand(table, OidAt(table, path[0]), depth) == None
    decreases depth
  {
    if Expand(table, OidAt(table, path[0]), depth).Some? {
      CallsAreShallower(table, path, |path| - 1, depth);
      CircleNeverFinishes(table, path, depth - (|path| - 1));
    }
  }

  lemma {:induction false} FirstTooDeep(table: Table, oid: seq<Part>, depth: nat) returns (i: nat)
    requires Expand(table, oid, depth).None?
    ensures i < |oid| && Expand(table, oid[..i], depth).Some? && Expand(table, oid[..i], depth).value.Numbers?
    ensures ExpandPart(table, oid[i], depth).None?
    decreases |oid|
  {
    i := |oid| - 1;
    if Expand(table, oid[..i], depth).None? {
      var n := i;
      i := FirstTooDeep(table, oid[..n], depth);
      assert oid[..n][..i] == oid[..i];
    }
  }

  lemma {:induction false} DeepCalls(table: Table, k: Key, depth: nat) returns (path: seq<Key>)
    requires HasOid(table, k) && Expand(table, OidAt(table, k), depth).None?
    ensures CallsAlong(table, path) && |path| == depth + 2 && path[0] == k
    decreases depth
  {
    var oid := OidAt(table, k);
    var i := FirstTooDeep(table, oid, depth);
    var l := oid[i].key;
    assert Calls(table, k, l);
    if depth == 0 {
      path := [k, l];
    } else {
      var rest := DeepCalls(table, l, depth - 1);
      path := [k] + rest;
    }
  }

  function Keys(table: Table): set<Key> {
    set m, s | m in table.Keys && s in table[m].Keys :: (s, m)
  }

  /** The expansion of `k` ends exactly when the calls it leads to never come back to a symbol they came
      through; and then they nest no deeper than there are symbols. */
  lemma FinishesExactly(table: Table, k: Key)
    requires HasOid(table, k)
    ensures Finishes(table, k) <==>
      forall path :: CallsAlong(table, path) && path != [] && path[0] == k ==> NoRepeats(path)
    ensures Finishes(table, k) <==> Expand(table, OidAt(table, k), |Keys(table)|).Some?
  {
    if Expand(table, OidAt(table, k), |Keys(table)|).None? {
      var path := DeepCalls(table, k, |Keys(table)|);
      LongSequenceRepeats(path, Keys(table));
      assert !NoRepeats(path);
    } else {
      forall path | CallsAlong(table, path) && path != [] && path[0] == k ensures NoRepeats(path) {
        FinishingPath(table, path, |Keys(table)|);
      }
    }
    if Finishes(table, k) {
      var depth: nat :| Expand(table, OidAt(table, k), depth).Some?;
      forall path | CallsAlong(table, path) && path != [] && path[0] == k ensures NoRepeats(path) {
        FinishingPath(table, path, depth);
      }
    }
  }

  lemma FinishingPath(table: Table, path: seq<Key>, depth: nat)
    requires CallsAlong(table, path) && path != [] && Expand(table, OidAt(table, path[0]), depth).Some?
    ensures NoRepeats(path)
  {
    if i, j :| 0 <= i < j < |path| && path[i] == path[j] {
      CallsAreShallower(table, path, i, depth);
      CircleNeverFinishes(table, path[i..j + 1], depth - i);
    }
  }

  // ----- when all names resolve

  /** Every name in an identifier is iso or has an identifier. */
  ghost predicate Resolved(table: Table) {
    forall k: Key, i :: HasOid(table, k) && 0 <= i < |OidAt(table, k)| ==> PartResolved(table, OidAt(table, k)[i])
  }

  predicate PartResolved(table: Table, part: Part) {
    part.Ref? ==> part.key.0 == "iso" || HasOid(table, part.key)
  }

  /** The consecutive keys of `path` refer to each other by name. */
  predicate RefersAlong(table: Table, path: seq<Key>) {
    (forall i :: 0 <= i < |path| ==> HasOid(table, path[i])) &&
    (forall i :: 0 < i < |path| ==> path[i].0 != "iso" && Ref(path[i]) in OidAt(table, path[i - 1]))
  }

  lemma {:induction false} ResolvedHasNoError(table: Table, oid: seq<Part>, depth: nat)
    requires Resolved(table) && (forall i :: 0 <= i < |oid| ==> PartResolved(table, oid[i]))
    ensures Expand(table, oid, depth).Some? ==> Expand(table, oid, depth).value.Numbers?
    decreases depth, |oid|
  {
    if oid != [] {
      var n := |oid| - 1;
      ResolvedHasNoError(table, oid[..n], depth);
      if oid[n].Ref? && HasOid(table, oid[n].key) && depth > 0 {
        ResolvedHasNoError(table, OidAt(table, oid[n].key), depth - 1);
      }
    }
  }

  lemma ReferenceIsCall(table: Table, k: Key, l: Key, depth: nat)
    requires Resolved(table) && HasOid(table, k) && HasOid(table, l) && l.0 != "iso" && Ref(l) in OidAt(table, k)
    requires Expand(table, OidAt(table, k), depth).Some?
    ensures Calls(table, k, l)
  {
    var oid := OidAt(table, k);
    var i :| 0 <= i < |oid| && oid[i] == Ref(l);
    PrefixDecides(table, oid, depth, i);
    ResolvedHasNoError(table, oid[..i], depth);
  }

  lemma {:induction false} ReferencesAreCalls(table: Table, path: seq<Key>, depth: nat)
    requires Resolved(table) && RefersAlong(table, path) && path != [] &&
      Expand(table, OidAt(table, path[0]), depth).Some?
    ensures CallsAlong(table, path)
    decreases |path|
  {
    var n := |path| - 1;
    if n > 0 {
      ReferencesAreCalls(table, path[..n], depth);
      CallsAreShallower(table, path[..n], n - 1, depth);
      ReferenceIsCall(table, path[n - 1], path[n], depth - (n - 1));
    }
  }

  /** When all names resolve, the expansion of `k` ends exactly when no chain of references from `k`, taken
      as they stand in the definitions, comes back to a symbol; for definitions of a parent and a number,
      exactly when the chain of parents does not. */
  lemma ResolvedFinishesExactly(table: Table, k: Key)
    requires Resolved(table) && HasOid(table, k)
    ensures Finishes(table, k) <==>
      forall path :: RefersAlong(table, path) && path != [] && path[0] == k ==> NoRepeats(path)
  {
    FinishesExactly(table, k);
    if Finishes(table, k) {
      var depth: nat :| Expand(table, OidAt(table, k), depth).Some?;
      forall path | RefersAlong(table, path) && path != [] && path[0] == k ensures NoRepeats(path) {
        ReferencesAreCalls(table, path, depth);
      }
    } else {
      var path: seq<Key> :| CallsAlong(table, path) && path != [] && path[0] == k && !NoRepeats(path);
      forall i | 0 < i < |path| ensures path[i].0 != "iso" && Ref(path[i]) in OidAt(table, path[i - 1]) {
        assert Calls(table, path[i - 1], path[i]);
      }
    }
  }

  /** Every name in `oid` that is looked up, except iso, has a rank below `limit`. */
  ghost predicate RefsBelow(table: Table, rank: Key -> nat, oid: seq<Part>, limit: nat) {
    forall i :: 0 <= i < |oid| && oid[i].Ref? && oid[i].key.0 != "iso" && HasOid(table, oid[i].key) ==>
      rank(oid[i].key) < limit
  }

  /** The graph of object identifiers is well-founded. */
  ghost predicate OidsDescend(table: Table, rank: Key -> nat) {
    forall k: Key :: HasOid(table, k) ==> RefsBelow(table, rank, OidAt(table, k), rank(k))
  }

  /** On a well-founded graph every expansion ends, as deep as the rank. */
  lemma {:induction false} WellFoundedFinishes(table: Table, rank: Key -> nat, oid: seq<Part>, limit: nat)
    requires OidsDescend(table, rank) && RefsBelow(table, rank, oid, limit)
    ensures Expand(table, oid, limit).Some?
    decreases limit, |oid|
  {
    if oid != [] {
      var n := |oid| - 1;
      WellFoundedFinishes(table, rank, oid[..n], limit);
      if oid[n].Ref? && oid[n].key.0 != "iso" && HasOid(table, oid[n].key) {
        var k := oid[n].key;
        WellFoundedFinishes(table, rank, OidAt(table, k), rank(k));
        Deeper(table, OidAt(table, k), rank(k), limit - 1);
      }
    }
  }

  // ----- what the numbers say about the names

  lemma {:induction false} ExpandAppend(table: Table, a: seq<Part>, b: seq<Part>, depth: nat)
    ensures Expand(table, a + b, depth) == Then(Expand(table, a, depth), Expand(table, b, depth))
    decreases |b|
  {
    if b == [] {
      assert a + b == a;
      ThenIsAssociative(Expand(table, a, depth), None, None);
    } else {
      var n := |b| - 1;
      assert (a + b)[..|a + b| - 1] == a + b[..n] && (a + b)[|a + b| - 1] == b[n];
      ExpandAppend(table, a, b[..n], depth);
      ThenIsAssociative(Expand(table, a, depth), Expand(table, b[..n], depth), ExpandPart(table, b[n], depth));
    }
  }

  lemma SinglePart(table: Table, part: Part, depth: nat)
    ensures Expand(table, [part], depth) == ExpandPart(table, part, depth)
  {
    assert [part][..0] == [];
    ThenIsAssociative(ExpandPart(table, part, depth), None, None);
  }

  /** A symbol defined as its leading parent followed by at least one number lies strictly below it. */
  lemma ChildExtendsParent(table: Table, k: Key, parent: Key, rest: seq<Part>, depth: nat, numbers: seq<nat>)
    requires HasOid(table, k) && OidAt(table, k) == [Ref(parent)] + rest
    requires exists i :: 0 <= i < |rest| && rest[i].Number?
    requires Expand(table, OidAt(table, k), depth) == Some(Numbers(numbers))
    ensures parent.0 == "iso" || HasOid(table, parent)
    ensures match ExpandPart(table, Ref(parent), depth)
      case Some(Numbers(above)) => above < numbers
      case _ => false
  {
    ExpandAppend(table, [Ref(parent)], rest, depth);
    SinglePart(table, Ref(parent), depth);
    var i :| 0 <= i < |rest| && rest[i].Number?;
    assert rest == rest[..i] + ([rest[i]] + rest[i + 1..]);
    ExpandAppend(table, rest[..i], [rest[i]] + rest[i + 1..], depth);
    ExpandAppend(table, [rest[i]], rest[i + 1..], depth);
    SinglePart(table, rest[i], depth);
  }

  /** The parent a definition names; iso is the same root in every module. */
  function Root(k: Key): Key {
    if k.0 == "iso" then ("iso", "") else k
  }

  /** Every definition is a parent and a number, rooted by name at iso. */
  ghost predicate ParentAndNumber(table: Table) {
    forall k: Key :: HasOid(table, k) ==>
      var oid := OidAt(table, k);
      |oid| == 2 && oid[0].Ref? && oid[1].Number? && PartResolved(table, oid[0])
  }

  /** No two symbols have the same number below the same parent. */
  ghost predicate NoRepeatedNumber(table: Table)
    requires ParentAndNumber(table)
  {
    forall k, l: Key | HasOid(table, k) && HasOid(table, l) ::
      Root(OidAt(table, k)[0].key) == Root(OidAt(table, l)[0].key) && OidAt(table, k)[1] == OidAt(table, l)[1] ==>
        k == l
  }

  lemma {:induction false} NumbersOfParentAndNumber(table: Table, k: Key, depth: nat)
    requires ParentAndNumber(table) && HasOid(table, k) && Expand(table, OidAt(table, k), depth).Some?
    ensures var oid := OidAt(table, k);
      match ExpandPart(table, oid[0], depth)
      case Some(Numbers(above)) => above != [] && Expand(table, oid, depth) == Some(Numbers(above + [oid[1].n]))
      case _ => false
    ensures OidAt(table, k)[0].key.0 == "iso" <==> |Expand(table, OidAt(table, k), depth).value.value| == 2
    decreases depth
  {
    var oid := OidAt(table, k);
    var parent := oid[0].key;
    assert oid == [oid[0]] + [oid[1]];
    ExpandAppend(table, [oid[0]], [oid[1]], depth);
    SinglePart(table, oid[0], depth);
    SinglePart(table, oid[1], depth);
    if parent.0 != "iso" {
      NumbersOfParentAndNumber(table, parent, depth - 1);
    }
  }

  /** Different symbols get different object identifiers. */
  lemma {:induction false} NumericOidIsInjective(table: Table, k: Key, l: Key, depth: nat)
    requires ParentAndNumber(table) && NoRepeatedNumber(table)
    requires HasOid(table, k) && HasOid(table, l) && Expand(table, OidAt(table, k), depth).Some?
    requires Expand(table, OidAt(table, k), depth) == Expand(table, OidAt(table, l), depth)
    ensures k == l
    decreases depth
  {
    var p, q := OidAt(table, k)[0], OidAt(table, l)[0];
    NumbersOfParentAndNumber(table, k, depth);
    NumbersOfParentAndNumber(table, l, depth);
    var above, numbers := ExpandPart(table, p, depth).value.value, Expand(table, OidAt(table, k), depth).value.value;
    assert numbers[..|numbers| - 1] == above == ExpandPart(table, q, depth).value.value;
    assert numbers[|numbers| - 1] == OidAt(table, k)[1].n == OidAt(table, l)[1].n;
    if p.key.0 != "iso" {
      NumericOidIsInjective(table, p.key, q.key, depth - 1);
    }
  }

  // ----- which numbers

  /** What single parts give: a number itself, iso the number 1, and a name the error of what it lacks. */
  lemma PartsGive(table: Table, k: Key, n: nat, depth: nat)
    ensures Expand(table, [], depth) == Some(Numbers([]))
    ensures Expand(table, [Number(n)], depth) == Some(Numbers([n]))
    ensures k.0 == "iso" ==> Expand(table, [Ref(k)], depth) == Some(Numbers([1]))
    ensures k.0 != "iso" && k.1 !in table ==> Expand(table, [Ref(k)], depth) == Some(Failed(NoModule))
    ensures k.0 != "iso" && k.1 in table && k.0 !in table[k.1] ==>
      Expand(table, [Ref(k)], depth) == Some(Failed(NoSymbol))
    ensures k.0 != "iso" && k.1 in table && k.0 in table[k.1] && table[k.1][k.0].None? ==>
      Expand(table, [Ref(k)], depth) == Some(Failed(NoOid))
    ensures k.0 != "iso" && HasOid(table, k) && depth > 0 ==>
      Expand(table, [Ref(k)], depth) == Expand(table, OidAt(table, k), depth - 1)
  {
    SinglePart(table, Number(n), depth);
    SinglePart(table, Ref(k), depth);
  }

  /** A definition is a parent and a number. */
  predicate IsChild(table: Table, k: Key, parent: Key, n: nat) {
    HasOid(table, k) && OidAt(table, k) == [Ref(parent), Number(n)]
  }

  /** `path` leads down from iso: each symbol is defined as the one before it and a number. */
  predicate LeadsDown(table: Table, path: seq<Key>, numbers: seq<nat>) {
    && |path| == |numbers| + 1 && path[0].0 == "iso"
    && (forall i :: 0 < i < |path| ==> IsChild(table, path[i], path[i - 1], numbers[i - 1]))
    && (forall i :: 0 < i < |path| - 1 ==> path[i].0 != "iso")
  }

  lemma LeadsDownNext(table: Table, path: seq<Key>, numbers: seq<nat>, k: Key, n: nat)
    requires LeadsDown(table, path, numbers) && (|path| > 1 ==> path[|path| - 1].0 != "iso")
    requires IsChild(table, k, path[|path| - 1], n)
    ensures LeadsDown(table, path + [k], numbers + [n])
  {
  }

  /** The object identifier of a symbol is 1 and the numbers of the definitions from iso down to it. */
  lemma {:induction false} NumbersOnTheWayDown(table: Table, path: seq<Key>, numbers: seq<nat>, depth: nat)
    requires LeadsDown(table, path, numbers) && numbers != [] && depth >= |numbers|
    ensures var k := path[|path| - 1];
      HasOid(table, k) && Expand(table, OidAt(table, k), depth) == Some(Numbers([1] + numbers))
    decreases |path|
  {
    var n := |path| - 1;
    var k, parent, last := path[n], path[n - 1], numbers[n - 1];
    assert IsChild(table, k, parent, last);
    assert OidAt(table, k) == [Ref(parent)] + [Number(last)];
    ExpandAppend(table, [Ref(parent)], [Number(last)], depth);
    PartsGive(table, parent, last, depth);
    if n > 1 {
      NumbersOnTheWayDown(table, path[..n], numbers[..n - 1], depth - 1);
      assert path[..n][n - 1] == parent;
    } else {
      assert [1] + numbers[..n - 1] == [1];
    }
    assert [1] + numbers[..n - 1] + [last] == [1] + numbers;
  }

  /** In tables of parents and numbers every symbol whose expansion ends has such a way. */
  lemma {:induction false} WayDown(table: Table, k: Key, depth: nat) returns (path: seq<Key>, numbers: seq<nat>)
    requires ParentAndNumber(table) && HasOid(table, k) && Expand(table, OidAt(table, k), depth).Some?
    ensures LeadsDown(table, path, numbers) && path[|path| - 1] == k && 0 < |numbers| <= depth + 1
    decreases depth
  {
    var oid := OidAt(table, k);
    var parent, n := oid[0].key, oid[1].n;
    assert oid == [Ref(parent), Number(n)];
    if parent.0 == "iso" {
      path, numbers := [parent], [];
    } else {
      PrefixDecides(table, oid, depth, 1);
      assert oid[..1] == [Ref(parent)];
      SinglePart(table, Ref(parent), depth);
      path, numbers := WayDown(table, parent, depth - 1);
    }
    LeadsDownNext(table, path, numbers, k, n);
    path, numbers := path + [k], numbers + [n];
  }
}
