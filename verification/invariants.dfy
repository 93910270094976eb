/** What every reachable store satisfies, over any script and any answers of the database. */
module StoreInvariants {
  import opened Words
  import opened SnmpStore
  import opened CommandGrammar

  predicate DistinctTraps(ts: seq<TrapRow>) {
    forall i, j :: 0 <= i < j < |ts| ==> TrapKey(ts[i]) != TrapKey(ts[j])
  }

  predicate DistinctUsers(us: seq<UserRow>) {
    forall i, j :: 0 <= i < j < |us| ==> UserKey(us[i].name) != UserKey(us[j].name)
  }

  predicate DistinctCommunities(cs: seq<string>) {
    forall i, j :: 0 <= i < j < |cs| ==> CommunityKey(cs[i]) != CommunityKey(cs[j])
  }

  /** A receiver some DEFUN can name and the address check accepts. */
  predicate GoodTrap(pf: Platform, t: TrapRow) {
    && IsWord(t.address) && pf.isAddress(t.address) && pf.isValid(t.address)
    && 1 <= t.port <= 65535
    && IsWord(t.community)
    && (t.version == V1 ==> t.kind == Trap)
  }

  /** A privacy protocol implies an authentication protocol (RFC 3411, section 3.4.3),
      and exactly the protocols in use have a pass phrase. */
  predicate GoodUser(u: UserRow) {
    && IsWord(u.name)
    && (u.priv != NoPriv ==> u.auth != NoAuth)
    && (if u.auth == NoAuth then u.authPass == "" else IsWord(u.authPass))
    && (if u.priv == NoPriv then u.privPass == "" else IsWord(u.privPass))
  }

  predicate GoodSetting(key: string, value: string) {
    && (key == AGENT_PORT ==> IsPort(value))
    && (key in {DESCRIPTION, LOCATION, CONTACT} ==> IsPhrase(value))
  }

  /** A description that was reset holds the switch version instead of a typed phrase. */
  predicate GoodConfig(config: map<string, string>, switchVersion: string) {
    forall key :: key in config ==>
      GoodSetting(key, config[key]) || (key == DESCRIPTION && config[key] == switchVersion)
  }

  predicate GoodTraps(pf: Platform, ts: seq<TrapRow>) {
    forall i :: 0 <= i < |ts| ==> GoodTrap(pf, ts[i])
  }

  predicate GoodUsers(us: seq<UserRow>) {
    forall i :: 0 <= i < |us| ==> GoodUser(us[i])
  }

  /** Every v3 receiver names an existing user. */
  predicate TrapsHaveUsers(ts: seq<TrapRow>, us: seq<UserRow>) {
    forall i :: 0 <= i < |ts| && ts[i].version == V3 ==> HasUser(us, ts[i].community)
  }

  /** What the tables of a store satisfy, however many shells have written them. */
  predicate Stored(pf: Platform, st: Store) {
    && GoodConfig(st.otherConfig, st.switchVersion)
    && AllWords(st.communities) && DistinctCommunities(st.communities) && |st.communities| <= MAX_COMMUNITIES
    && GoodTraps(pf, st.traps) && DistinctTraps(st.traps)
    && GoodUsers(st.users) && DistinctUsers(st.users)
    && TrapsHaveUsers(st.traps, st.users)
  }

  /** The counter has counted all receivers but at most `older` ones, which another shell may have added. */
  predicate Counted(st: Store, older: nat) {
    |st.traps| <= older + st.trapCount && st.trapCount <= MAX_TRAPS + 1
  }

  /** What the store of a shell that started on an empty one satisfies. */
  predicate Valid(pf: Platform, st: Store) {
    Stored(pf, st) && Counted(st, 0)
  }

  /** A new shell on a store without SNMP configuration. */
  predicate Fresh(st: Store) {
    && AGENT_PORT !in st.otherConfig && DESCRIPTION !in st.otherConfig
    && LOCATION !in st.otherConfig && CONTACT !in st.otherConfig
    && st.communities == [] && st.traps == [] && st.users == [] && st.trapCount == 0
  }

  predicate GoodCommand(pf: Platform, cmd: Command) {
    match cmd
    case SetHost(row) => pf.isValid(row.address) ==> GoodTrap(pf, row)
    case UnsetHost(row) => true
    case SetConfig(key, value) => GoodSetting(key, value)
    case UnsetConfig(key) => true
    case SetCommunity(name) => IsWord(name)
    case UnsetCommunity(name) => true
    case SetUser(name, credentials) => GoodUser(NewUser(name, credentials))
    case UnsetUser(name) => true
  }

  // ----- what the patterns guarantee about the arguments

  lemma {:induction false} KeywordsAreGood(ws: seq<string>, community: Option<string>, port: Option<nat>)
    requires AllWords(ws)
    requires community.Some? ==> IsWord(community.value)
    requires port.Some? ==> 1 <= port.value <= 65535
    ensures
      match Keywords(ws, community, port)
      case None => true
      case Some((c, p)) => (c.Some? ==> IsWord(c.value)) && (p.Some? ==> 1 <= p.value <= 65535)
    decreases |ws|
  {
    if |ws| >= 2 && ws[0] == "community" && community.None? {
      KeywordsAreGood(ws[2..], Some(ws[1]), port);
    } else if |ws| >= 2 && ws[0] == "port" && port.None? && IsPort(ws[1]) {
      KeywordsAreGood(ws[2..], community, Some(Number(ws[1])));
    }
  }

  lemma HostArgumentsAreGood(pf: Platform, ws: seq<string>)
    requires AllWords(ws)
    ensures
      match HostArguments(pf, ws)
      case None => true
      case Some(row) => pf.isValid(row.address) ==> GoodTrap(pf, row)
  {
    if |ws| >= 4 {
      KeywordsAreGood(ws[4..], None, None);
    }
  }

  lemma ParsedCommandsAreGood(pf: Platform, line: string)
    ensures Parse(pf, line).Some? ==> GoodCommand(pf, Parse(pf, line).value)
  {
    var ws := Split(line);
    SplitFromYieldsWords([], line);
    if |ws| >= 2 {
      HostArgumentsAreGood(pf, ws[2..]);
      if |ws| >= 3 {
        JoinIsPhrase(ws[2..]);
      }
    }
  }

  // ----- what the row operations keep

  function Position<T>(rows: seq<T>, slot: nat): nat {
    if slot <= |rows| then slot else |rows|
  }

  lemma InsertAtElements<T>(rows: seq<T>, slot: nat, x: T)
    ensures multiset(InsertAt(rows, slot, x)) == multiset(rows) + multiset{x}
    ensures forall y :: y in InsertAt(rows, slot, x) <==> y in rows || y == x
  {
    var p := Position(rows, slot);
    assert rows == rows[..p] + rows[p..];
    var all := InsertAt(rows, slot, x);
    assert forall y :: y in all <==> y in multiset(all);
    assert forall y :: y in rows <==> y in multiset(rows);
  }

  lemma InsertAtKeepsUsers(us: seq<UserRow>, slot: nat, u: UserRow)
    requires GoodUsers(us) && DistinctUsers(us) && GoodUser(u) && !HasUser(us, u.name)
    ensures GoodUsers(InsertAt(us, slot, u)) && DistinctUsers(InsertAt(us, slot, u))
  {
  }

  lemma {:induction false} WithoutTrapRows(ts: seq<TrapRow>, r: TrapRow)
    ensures forall t :: t in WithoutTrap(ts, r) <==> t in ts && !SameReceiver(t, r)
    ensures |WithoutTrap(ts, r)| <= |ts|
  {
    if ts != [] {
      var n := |ts| - 1;
      WithoutTrapRows(ts[..n], r);
      assert ts == ts[..n] + [ts[n]];
    }
  }

  lemma {:induction false} WithoutTrapKeepsDistinct(ts: seq<TrapRow>, r: TrapRow)
    requires DistinctTraps(ts)
    ensures DistinctTraps(WithoutTrap(ts, r))
  {
    if ts != [] {
      var n := |ts| - 1;
      WithoutTrapKeepsDistinct(ts[..n], r);
      WithoutTrapRows(ts[..n], r);
      var rest := WithoutTrap(ts[..n], r);
      forall i | 0 <= i < |rest| ensures TrapKey(rest[i]) != TrapKey(ts[n]) {
        assert rest[i] in ts[..n];
      }
    }
  }

  lemma {:induction false} WithoutUserRows(us: seq<UserRow>, name: string)
    ensures forall u :: u in WithoutUser(us, name) <==> u in us && UserKey(u.name) != UserKey(name)
  {
    if us != [] {
      var n := |us| - 1;
      WithoutUserRows(us[..n], name);
      assert us == us[..n] + [us[n]];
    }
  }

  lemma {:induction false} WithoutUserKeepsDistinct(us: seq<UserRow>, name: string)
    requires DistinctUsers(us)
    ensures DistinctUsers(WithoutUser(us, name))
  {
    if us != [] {
      var n := |us| - 1;
      WithoutUserKeepsDistinct(us[..n], name);
      WithoutUserRows(us[..n], name);
      var rest := WithoutUser(us[..n], name);
      forall i | 0 <= i < |rest| ensures UserKey(rest[i].name) != UserKey(us[n].name) {
        assert rest[i] in us[..n];
      }
    }
  }

  /** Removing a community removes exactly it. */
  lemma {:induction false} WithoutCommunityRows(cs: seq<string>, name: string)
    ensures forall c :: c in WithoutCommunity(cs, name) <==> c in cs && c != name
    ensures |WithoutCommunity(cs, name)| <= |cs|
  {
    if cs != [] {
      var n := |cs| - 1;
      WithoutCommunityRows(cs[..n], name);
      assert cs == cs[..n] + [cs[n]];
    }
  }

  lemma {:induction false} WithoutCommunityKeepsDistinct(cs: seq<string>, name: string)
    requires DistinctCommunities(cs)
    ensures DistinctCommunities(WithoutCommunity(cs, name))
    ensures |WithoutCommunity(cs, name)| == if name in cs then |cs| - 1 else |cs|
  {
    if cs != [] {
      var n := |cs| - 1;
      WithoutCommunityKeepsDistinct(cs[..n], name);
      WithoutCommunityRows(cs[..n], name);
      assert cs == cs[..n] + [cs[n]];
      var rest := WithoutCommunity(cs[..n], name);
      forall i | 0 <= i < |rest| ensures CommunityKey(rest[i]) != CommunityKey(cs[n]) {
        assert rest[i] in cs[..n];
      }
    }
  }

  lemma HasUserOf(us: seq<UserRow>, name: string)
    ensures HasUser(us, name) <==> exists u :: u in us && UserKey(u.name) == UserKey(name)
  {
  }

  /** A user nobody names can go: the other v3 receivers keep theirs. */
  lemma RemovingKeepsUsers(ts: seq<TrapRow>, us: seq<UserRow>, name: string)
    requires TrapsHaveUsers(ts, us) && !TrapNames(ts, name)
    ensures TrapsHaveUsers(ts, WithoutUser(us, name))
  {
    WithoutUserRows(us, name);
    forall i | 0 <= i < |ts| && ts[i].version == V3
      ensures HasUser(WithoutUser(us, name), ts[i].community)
    {
      HasUserOf(us, ts[i].community);
      HasUserOf(WithoutUser(us, name), ts[i].community);
    }
  }

  lemma InsertedUserKeepsUsers(ts: seq<TrapRow>, us: seq<UserRow>, slot: nat, u: UserRow)
    requires TrapsHaveUsers(ts, us)
    ensures TrapsHaveUsers(ts, InsertAt(us, slot, u))
  {
    InsertAtElements(us, slot, u);
    forall i | 0 <= i < |ts| && ts[i].version == V3
      ensures HasUser(InsertAt(us, slot, u), ts[i].community)
    {
      HasUserOf(us, ts[i].community);
      HasUserOf(InsertAt(us, slot, u), ts[i].community);
    }
  }

  lemma SetHostKeepsStored(pf: Platform, st: Store, row: TrapRow, ch: Choice)
    requires Stored(pf, st) && GoodCommand(pf, SetHost(row))
    ensures Stored(pf, Perform(pf, st, SetHost(row), ch).0)
  {
  }

  lemma UnsetHostKeepsStored(pf: Platform, st: Store, row: TrapRow, ch: Choice)
    requires Stored(pf, st)
    ensures Stored(pf, Perform(pf, st, UnsetHost(row), ch).0)
  {
    WithoutTrapRows(st.traps, row);
    WithoutTrapKeepsDistinct(st.traps, row);
    var rest := WithoutTrap(st.traps, row);
    forall i | 0 <= i < |rest|
      ensures GoodTrap(pf, rest[i]) && (rest[i].version == V3 ==> HasUser(st.users, rest[i].community))
    {
      assert rest[i] in st.traps;
    }
  }

  lemma UnsetCommunityKeepsStored(pf: Platform, st: Store, name: string, ch: Choice)
    requires Stored(pf, st)
    ensures Stored(pf, Perform(pf, st, UnsetCommunity(name), ch).0)
  {
    WithoutCommunityRows(st.communities, name);
    WithoutCommunityKeepsDistinct(st.communities, name);
    var rest := WithoutCommunity(st.communities, name);
    forall i | 0 <= i < |rest| ensures IsWord(rest[i]) {
      assert rest[i] in st.communities;
    }
  }

  lemma SetUserKeepsStored(pf: Platform, st: Store, name: string, credentials: Credentials, ch: Choice)
    requires Stored(pf, st) && GoodCommand(pf, SetUser(name, credentials))
    ensures Stored(pf, Perform(pf, st, SetUser(name, credentials), ch).0)
  {
    if !HasUser(st.users, name) {
      InsertAtKeepsUsers(st.users, ch.slot, NewUser(name, credentials));
    }
    InsertedUserKeepsUsers(st.traps, st.users, ch.slot, NewUser(name, credentials));
  }

  lemma UnsetUserKeepsStored(pf: Platform, st: Store, name: string, ch: Choice)
    requires Stored(pf, st)
    ensures Stored(pf, Perform(pf, st, UnsetUser(name), ch).0)
  {
    WithoutUserRows(st.users, name);
    WithoutUserKeepsDistinct(st.users, name);
    var rest := WithoutUser(st.users, name);
    forall i | 0 <= i < |rest| ensures GoodUser(rest[i]) {
      assert rest[i] in st.users;
    }
    if !TrapNames(st.traps, name) {
      RemovingKeepsUsers(st.traps, st.users, name);
    }
  }

  lemma PerformKeepsStored(pf: Platform, st: Store, cmd: Command, ch: Choice)
    requires Stored(pf, st) && GoodCommand(pf, cmd)
    ensures Stored(pf, Perform(pf, st, cmd, ch).0)
  {
    match cmd
    case SetHost(row) => SetHostKeepsStored(pf, st, row, ch);
    case UnsetHost(row) => UnsetHostKeepsStored(pf, st, row, ch);
    case SetConfig(key, value) =>
    case UnsetConfig(key) =>
    case SetCommunity(name) =>
    case UnsetCommunity(name) => UnsetCommunityKeepsStored(pf, st, name, ch);
    case SetUser(name, credentials) => SetUserKeepsStored(pf, st, name, credentials, ch);
    case UnsetUser(name) => UnsetUserKeepsStored(pf, st, name, ch);
  }

  lemma PerformKeepsCounted(pf: Platform, st: Store, cmd: Command, ch: Choice, older: nat)
    requires Counted(st, older)
    ensures Counted(Perform(pf, st, cmd, ch).0, older)
  {
    if cmd.UnsetHost? {
      WithoutTrapRows(st.traps, cmd.row);
    }
  }

  /** Each command keeps the tables valid and the counter right. */
  lemma PerformKeepsValid(pf: Platform, st: Store, cmd: Command, ch: Choice)
    requires Valid(pf, st) && GoodCommand(pf, cmd)
    ensures Valid(pf, Perform(pf, st, cmd, ch).0)
  {
    PerformKeepsStored(pf, st, cmd, ch);
    PerformKeepsCounted(pf, st, cmd, ch, 0);
  }

  /** Any script, any database answers: the tables stay valid and the counter right. */
  lemma {:induction false} RunKeepsStored(
      pf: Platform, st: Store, lines: seq<string>, choices: seq<Choice>, older: nat)
    requires Stored(pf, st) && Counted(st, older) && |lines| == |choices|
    ensures Stored(pf, Run(pf, st, lines, choices)) && Counted(Run(pf, st, lines, choices), older)
    decreases |lines|
  {
    if lines != [] {
      ParsedCommandsAreGood(pf, lines[0]);
      var cmd := Parse(pf, lines[0]);
      if cmd.Some? {
        PerformKeepsStored(pf, st, cmd.value, choices[0]);
        PerformKeepsCounted(pf, st, cmd.value, choices[0], older);
      }
      RunKeepsStored(pf, Step(pf, st, lines[0], choices[0]).0, lines[1..], choices[1..], older);
    }
  }

  lemma RunKeepsValid(pf: Platform, st: Store, lines: seq<string>, choices: seq<Choice>)
    requires Valid(pf, st) && |lines| == |choices|
    ensures Valid(pf, Run(pf, st, lines, choices))
  {
    RunKeepsStored(pf, st, lines, choices, 0);
  }

  /** The stores one shell leaves that started on an empty one. */
  ghost predicate Reachable(pf: Platform, st: Store) {
    exists start: Store, lines: seq<string>, choices: seq<Choice> ::
      Fresh(start) && |lines| == |choices| && st == Run(pf, start, lines, choices)
  }

  lemma ReachableIsValid(pf: Platform, st: Store)
    requires Reachable(pf, st)
    ensures Valid(pf, st)
  {
    var start: Store, lines: seq<string>, choices: seq<Choice> :|
      Fresh(start) && |lines| == |choices| && st == Run(pf, start, lines, choices);
    RunKeepsValid(pf, start, lines, choices);
  }

  // ----- one shell after the other

  /** What one shell is given, and how the database answers it. */
  datatype Script = Script(lines: seq<string>, choices: seq<Choice>)

  predicate Answered(scripts: seq<Script>) {
    forall i :: 0 <= i < |scripts| ==> |scripts[i].lines| == |scripts[i].choices|
  }

  /** Shells one after the other on the same database: the counter starts anew in each. */
  function RunShells(pf: Platform, st: Store, scripts: seq<Script>): Store
    requires Answered(scripts)
  {
    if scripts == [] then st else
    var n := |scripts| - 1;
    var before := RunShells(pf, st, scripts[..n]);
    Run(pf, before.(trapCount := 0), scripts[n].lines, scripts[n].choices)
  }

  /** The stores any shells leave that started on an empty one. */
  ghost predicate ReachableByShells(pf: Platform, st: Store) {
    exists start: Store, scripts: seq<Script> ::
      Fresh(start) && Answered(scripts) && st == RunShells(pf, start, scripts)
  }

  /** The tables stay valid whatever shells run; each adds at most 31 receivers. */
  lemma {:induction false} ShellsKeepStored(pf: Platform, start: Store, scripts: seq<Script>)
    requires Fresh(start) && Answered(scripts)
    ensures var st := RunShells(pf, start, scripts);
      Stored(pf, st) && |st.traps| <= (MAX_TRAPS + 1) * |scripts| && st.trapCount <= MAX_TRAPS + 1
  {
    if scripts != [] {
      var n := |scripts| - 1;
      ShellsKeepStored(pf, start, scripts[..n]);
      var before := RunShells(pf, start, scripts[..n]);
      RunKeepsStored(pf, before.(trapCount := 0), scripts[n].lines, scripts[n].choices, |before.traps|);
    }
  }

  lemma ReachableByShellsIsStored(pf: Platform, st: Store)
    requires ReachableByShells(pf, st)
    ensures Stored(pf, st)
  {
    var start: Store, scripts: seq<Script> :| Fresh(start) && Answered(scripts) && st == RunShells(pf, start, scripts);
    ShellsKeepStored(pf, start, scripts);
  }

  lemma OneShell(pf: Platform, st: Store)
    requires Reachable(pf, st)
    ensures ReachableByShells(pf, st)
  {
    var start: Store, lines: seq<string>, choices: seq<Choice> :|
      Fresh(start) && |lines| == |choices| && st == Run(pf, start, lines, choices);
    var scripts := [Script(lines, choices)];
    assert scripts[..0] == [] && start.(trapCount := 0) == start;
    assert RunShells(pf, start, scripts) == Run(pf, RunShells(pf, start, []), lines, choices);
  }

  /** A table of any size: the next shell accepts a new receiver again. */
  lemma NewShellAccepts(pf: Platform, st: Store, row: TrapRow, ch: Choice)
    requires GoodTrap(pf, row) && !HasTrap(st.traps, row) && ch.outcome == Committed
    requires row.version == V3 ==> HasUser(st.users, row.community)
    ensures |Perform(pf, st.(trapCount := 0), SetHost(row), ch).0.traps| == |st.traps| + 1
  {
  }
}
