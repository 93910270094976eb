/** A command, its `no` form, and the counter that stays. */
module Undo {
  import opened Words
  import opened SnmpStore
  import opened CommandGrammar
  import opened StoreInvariants

  /** The command the `no` form of a line stands for. */
  function NoForm(cmd: Command): Command {
    match cmd
    case SetHost(row) => UnsetHost(row)
    case SetConfig(key, _) => UnsetConfig(key)
    case SetCommunity(name) => UnsetCommunity(name)
    case SetUser(name, _) => UnsetUser(name)
    case other => other
  }

  lemma NoFormParses(pf: Platform, line: string)
    requires Parse(pf, line).Some? && NoForm(Parse(pf, line).value) != Parse(pf, line).value
    ensures Parse(pf, "no " + line) == Some(NoForm(Parse(pf, line).value))
  {
    SplitOfJoin(["no"], line);
    assert Join(["no"] + [line]) == "no " + line;
    assert (["no"] + Split(line))[1..] == Split(line);
  }

  lemma {:induction false} WithoutTrapAppend(a: seq<TrapRow>, b: seq<TrapRow>, r: TrapRow)
    ensures WithoutTrap(a + b, r) == WithoutTrap(a, r) + WithoutTrap(b, r)
  {
    if b == [] {
      assert a + b == a;
    } else {
      var n := |b| - 1;
      assert (a + b)[..|a + b| - 1] == a + b[..n];
      WithoutTrapAppend(a, b[..n], r);
    }
  }

  lemma {:induction false} WithoutAbsentTrap(ts: seq<TrapRow>, r: TrapRow)
    requires !HasTrap(ts, r)
    ensures WithoutTrap(ts, r) == ts
  {
    if ts != [] {
      assert TrapKey(ts[|ts| - 1]) != TrapKey(r);
      WithoutAbsentTrap(ts[..|ts| - 1], r);
    }
  }

  lemma WithoutOneTrap(r: TrapRow)
    ensures WithoutTrap([r], r) == []
  {
    assert [r][..0] == [];
  }

  lemma WithoutUndoesInsert(ts: seq<TrapRow>, slot: nat, r: TrapRow)
    requires !HasTrap(ts, r)
    ensures WithoutTrap(InsertAt(ts, slot, r), r) == ts
  {
    var p := Position(ts, slot);
    WithoutTrapAppend(ts[..p] + [r], ts[p..], r);
    WithoutTrapAppend(ts[..p], [r], r);
    WithoutAbsentTrap(ts[..p], r);
    WithoutAbsentTrap(ts[p..], r);
    WithoutOneTrap(r);
    assert ts[..p] + [] + ts[p..] == ts;
  }

  lemma {:induction false} WithoutUserAppend(a: seq<UserRow>, b: seq<UserRow>, name: string)
    ensures WithoutUser(a + b, name) == WithoutUser(a, name) + WithoutUser(b, name)
  {
    if b == [] {
      assert a + b == a;
    } else {
      var n := |b| - 1;
      assert (a + b)[..|a + b| - 1] == a + b[..n];
      WithoutUserAppend(a, b[..n], name);
    }
  }

  lemma {:induction false} WithoutAbsentUser(us: seq<UserRow>, name: string)
    requires !HasUser(us, name)
    ensures WithoutUser(us, name) == us
  {
    if us != [] {
      assert UserKey(us[|us| - 1].name) != UserKey(name);
      WithoutAbsentUser(us[..|us| - 1], name);
    }
  }

  lemma WithoutUndoesInsertedUser(us: seq<UserRow>, slot: nat, u: UserRow)
    requires !HasUser(us, u.name)
    ensures WithoutUser(InsertAt(us, slot, u), u.name) == us
    ensures HasUser(InsertAt(us, slot, u), u.name)
  {
    var p := Position(us, slot);
    WithoutUserAppend(us[..p] + [u], us[p..], u.name);
    WithoutUserAppend(us[..p], [u], u.name);
    WithoutAbsentUser(us[..p], u.name);
    WithoutAbsentUser(us[p..], u.name);
    assert [u][..0] == [];
    assert us[..p] + [] + us[p..] == us;
    assert InsertAt(us, slot, u)[p] == u;
  }

  lemma {:induction false} WithoutAbsentCommunity(cs: seq<string>, name: string)
    requires name !in cs
    ensures WithoutCommunity(cs, name) == cs
  {
    if cs != [] {
      WithoutAbsentCommunity(cs[..|cs| - 1], name);
    }
  }

  lemma WithoutUndoesAppend(cs: seq<string>, name: string)
    requires !HasCommunity(cs, name)
    ensures WithoutCommunity(cs + [name], name) == cs
  {
    assert (cs + [name])[..|cs|] == cs;
    WithoutAbsentCommunity(cs, name);
  }

  /** What an accepted command and its `no` form leave behind. */
  function Undone(st: Store, cmd: Command, ch: Choice): Store {
    match cmd
    case SetHost(row) => st.(trapCount := st.trapCount + 1)
    case SetConfig(key, _) =>
      st.(otherConfig := if key == DESCRIPTION then st.otherConfig[key := st.switchVersion] else st.otherConfig - {key})
    case SetCommunity(name) => st
    case SetUser(name, credentials) =>
      if TrapNames(st.traps, name) then st.(users := InsertAt(st.users, ch.slot, NewUser(name, credentials))) else st
    case _ => st
  }

  /** An accepted line followed by its `no` form restores the tables, whatever position the database
      chose, with three exceptions: the counter of accepted receivers stays one higher, a setting goes
      back to its default rather than to its earlier value, and a user that receivers already name stays. */
  lemma LineThenNo(pf: Platform, st: Store, line: string, ch: Choice, undo: Choice)
    requires Parse(pf, line).Some? && NoForm(Parse(pf, line).value) != Parse(pf, line).value
    requires Step(pf, st, line, ch).1 == Silent && ch.outcome == undo.outcome == Committed
    ensures Step(pf, Step(pf, st, line, ch).0, "no " + line, undo).0 == Undone(st, Parse(pf, line).value, ch)
  {
    NoFormParses(pf, line);
    CommandThenNo(pf, st, Parse(pf, line).value, ch, undo);
  }

  lemma CommandThenNo(pf: Platform, st: Store, cmd: Command, ch: Choice, undo: Choice)
    requires NoForm(cmd) != cmd
    requires Perform(pf, st, cmd, ch).1 == Silent && ch.outcome == undo.outcome == Committed
    ensures Perform(pf, Perform(pf, st, cmd, ch).0, NoForm(cmd), undo).0 == Undone(st, cmd, ch)
  {
    match cmd
    case SetHost(row) => WithoutUndoesInsert(st.traps, ch.slot, row);
    case SetConfig(key, value) =>
      assert st.otherConfig[key := value] - {key} == st.otherConfig - {key};
      assert st.otherConfig[key := value][key := st.switchVersion] == st.otherConfig[key := st.switchVersion];
    case SetCommunity(name) =>
      WithoutUndoesAppend(st.communities, name);
      assert name in st.communities + [name];
    case SetUser(name, credentials) =>
      if !TrapNames(st.traps, name) {
        WithoutUndoesInsertedUser(st.users, ch.slot, NewUser(name, credentials));
      }
  }

  /** Nothing gives the counter back: once it passes the limit, no script adds a receiver again. */
  lemma {:induction false} WornOutShell(pf: Platform, st: Store, lines: seq<string>, choices: seq<Choice>)
    requires st.trapCount > MAX_TRAPS && |lines| == |choices|
    ensures Run(pf, st, lines, choices).trapCount == st.trapCount
    ensures forall t :: t in Run(pf, st, lines, choices).traps ==> t in st.traps
    decreases |lines|
  {
    if lines != [] {
      WornOutStep(pf, st, lines[0], choices[0]);
      WornOutShell(pf, Step(pf, st, lines[0], choices[0]).0, lines[1..], choices[1..]);
    }
  }

  lemma WornOutStep(pf: Platform, st: Store, line: string, ch: Choice)
    requires st.trapCount > MAX_TRAPS
    ensures Step(pf, st, line, ch).0.trapCount == st.trapCount
    ensures forall t :: t in Step(pf, st, line, ch).0.traps ==> t in st.traps
  {
    var cmd := Parse(pf, line);
    if cmd.Some? && cmd.value.UnsetHost? {
      WithoutTrapRows(st.traps, cmd.value.row);
    }
  }
}
