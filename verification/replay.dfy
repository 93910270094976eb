/** Replaying a printed running config on an empty store: exactly what comes back. */
module Replay {
  import opened Words
  import opened SnmpStore
  import opened CommandGrammar
  import opened StoreInvariants
  import opened RunningConfig

  /** The rows before the first v3 row. */
  function PlainHead(rows: seq<TrapRow>): seq<TrapRow> {
    if rows == [] then [] else
    var n := |rows| - 1;
    PlainHead(rows[..n]) + if SomeV3(rows) then [] else [rows[n]]
  }

  function V3Rows(rows: seq<TrapRow>): seq<TrapRow> {
    if rows == [] then [] else
    var n := |rows| - 1;
    V3Rows(rows[..n]) + if rows[n].version == V3 then [rows[n]] else []
  }

  /** What a new shell accepts of rows it is given one by one: the counter stops it. */
  function Admitted(rows: seq<TrapRow>): seq<TrapRow> {
    if |rows| <= MAX_TRAPS + 1 then rows else rows[..MAX_TRAPS + 1]
  }

  predicate V3RowsLast(rows: seq<TrapRow>) {
    forall i, j :: 0 <= i < j < |rows| && rows[i].version == V3 ==> rows[j].version == V3
  }

  predicate Listed(key: string, settings: seq<(string, string)>) {
    exists i :: 0 <= i < |settings| && settings[i].0 == key
  }

  /** The listed settings of `config`. */
  function Picked(config: map<string, string>, settings: seq<(string, string)>): map<string, string> {
    map key | key in config && Listed(key, settings) :: config[key]
  }

  function EffectiveDescription(st: Store): string {
    if DESCRIPTION in st.otherConfig then st.otherConfig[DESCRIPTION] else st.switchVersion
  }

  predicate AllCommitted(choices: seq<Choice>) {
    forall i :: 0 <= i < |choices| ==> choices[i].outcome == Committed
  }

  // ----- scripts in pieces

  lemma {:induction false} RunAppend(pf: Platform, st: Store, a: seq<string>, b: seq<string>, choices: seq<Choice>)
    requires |choices| == |a| + |b|
    ensures Run(pf, st, a + b, choices) == Run(pf, Run(pf, st, a, choices[..|a|]), b, choices[|a|..])
    decreases |a|
  {
    if a == [] {
      assert a + b == b && choices[|a|..] == choices;
    } else {
      assert (a + b)[1..] == a[1..] + b;
      assert choices[1..][..|a| - 1] == choices[..|a|][1..];
      assert choices[1..][|a| - 1..] == choices[|a|..];
      RunAppend(pf, Step(pf, st, a[0], choices[0]).0, a[1..], b, choices[1..]);
    }
  }

  lemma RunNext(pf: Platform, st: Store, lines: seq<string>, choices: seq<Choice>, i: nat)
    requires i < |lines| == |choices|
    ensures Run(pf, st, lines[..i + 1], choices[..i + 1]) ==
      Step(pf, Run(pf, st, lines[..i], choices[..i]), lines[i], choices[i]).0
  {
    assert lines[..i + 1] == lines[..i] + [lines[i]];
    assert choices[..i + 1][..i] == choices[..i] && choices[..i + 1][i..] == [choices[i]];
    RunAppend(pf, st, lines[..i], [lines[i]], choices[..i + 1]);
    var s := Run(pf, st, lines[..i], choices[..i]);
    assert Run(pf, s, [lines[i]], [choices[i]]) == Step(pf, s, lines[i], choices[i]).0;
  }

  // ----- settings and communities

  /** Replaying the line of a setting stores that setting. */
  ghost predicate LineSets(pf: Platform, config: map<string, string>, setting: (string, string)) {
    setting.0 in config ==>
      forall s, ch: Choice | ch.outcome == Committed ::
        Step(pf, s, Join(["snmp-server", setting.1, config[setting.0]]), ch).0 ==
          s.(otherConfig := s.otherConfig[setting.0 := config[setting.0]])
  }

  lemma SettingsHaveWords(k: nat)
    requires k < |SETTINGS|
    ensures var (key, word) := SETTINGS[k];
      if k == 0 then key == AGENT_PORT && word == "agent-port"
      else key in {DESCRIPTION, LOCATION, CONTACT} && LineKey(word) == Some(key) && IsWord(word)
  {
  }

  lemma ShownSettingSets(pf: Platform, st: Store, k: nat)
    requires GoodConfig(st.otherConfig, st.switchVersion) && k < |SETTINGS|
    ensures LineSets(pf, Shown(st), SETTINGS[k])
  {
    var (key, word) := SETTINGS[k];
    var m := Shown(st);
    SettingsHaveWords(k);
    if key in m {
      if k == 0 {
        PortLineParses(pf, m[key]);
      } else {
        SettingLineParses(pf, word, m[key]);
      }
    }
  }

  lemma SettingThen(pf: Platform, config: map<string, string>, setting: (string, string), rest: seq<string>,
                    s: Store, choices: seq<Choice>)
    requires LineSets(pf, config, setting)
    requires |choices| == |SettingLine(config, setting)| + |rest| && AllCommitted(choices)
    ensures Run(pf, s, SettingLine(config, setting) + rest, choices) ==
      Run(pf, s.(otherConfig := WithSetting(config, setting, s.otherConfig)), rest,
          choices[|SettingLine(config, setting)|..])
  {
    var first := SettingLine(config, setting);
    if setting.0 in config {
      assert (first + rest)[0] == first[0] && (first + rest)[1..] == rest;
    } else {
      assert first + rest == rest && choices[0..] == choices;
    }
  }

  function WithSetting(config: map<string, string>, setting: (string, string), base: map<string, string>)
    : map<string, string>
  {
    if setting.0 in config then base[setting.0 := config[setting.0]] else base
  }

  lemma ListedNext(settings: seq<(string, string)>, key: string)
    requires settings != []
    ensures Listed(key, settings) <==> key == settings[0].0 || Listed(key, settings[1..])
  {
    assert settings == [settings[0]] + settings[1..];
  }

  lemma PickedNext(config: map<string, string>, settings: seq<(string, string)>, base: map<string, string>)
    ensures settings == [] ==> base + Picked(config, settings) == base
    ensures settings != [] ==>
      WithSetting(config, settings[0], base) + Picked(config, settings[1..]) == base + Picked(config, settings)
  {
    if settings != [] {
      forall key ensures Listed(key, settings) <==> key == settings[0].0 || Listed(key, settings[1..]) {
        ListedNext(settings, key);
      }
    }
  }

  lemma {:induction false} SettingsRun(pf: Platform, config: map<string, string>, settings: seq<(string, string)>,
                                       s: Store, choices: seq<Choice>)
    requires forall i :: 0 <= i < |settings| ==> LineSets(pf, config, settings[i])
    requires |choices| == |SettingLines(config, settings)| && AllCommitted(choices)
    ensures Run(pf, s, SettingLines(config, settings), choices) ==
      s.(otherConfig := s.otherConfig + Picked(config, settings))
    decreases |settings|
  {
    PickedNext(config, settings, s.otherConfig);
    if settings != [] {
      var rest := SettingLines(config, settings[1..]);
      var n := |SettingLine(config, settings[0])|;
      SettingThen(pf, config, settings[0], rest, s, choices);
      SettingsRun(pf, config, settings[1..], s.(otherConfig := WithSetting(config, settings[0], s.otherConfig)),
                  choices[n..]);
    }
  }

  function CommunityLineEffect(s: Store, name: string): Store {
    if |s.communities| == MAX_COMMUNITIES || HasCommunity(s.communities, name) then s
    else s.(communities := s.communities + [name])
  }

  lemma CommunityLineRun(pf: Platform, s: Store, name: string, ch: Choice)
    requires IsWord(name) && ch.outcome == Committed
    ensures Step(pf, s, Join(["snmp-server", "community", name]), ch).0 == CommunityLineEffect(s, name)
  {
    CommunityLineParses(pf, name);
  }

  /** On an empty community list the lines rebuild it; on the rebuilt list they change nothing. */
  lemma {:induction false} CommunitiesRun(pf: Platform, cs: seq<string>, s: Store, choices: seq<Choice>, i: nat)
    requires AllWords(cs) && DistinctCommunities(cs) && |cs| <= MAX_COMMUNITIES
    requires s.communities == [] || s.communities == cs
    requires i <= |cs| == |choices| && AllCommitted(choices)
    ensures Run(pf, s, CommunityLines(cs)[..i], choices[..i]) ==
      if s.communities == cs then s else s.(communities := cs[..i])
  {
    if i > 0 {
      var name := cs[i - 1];
      CommunitiesRun(pf, cs, s, choices, i - 1);
      RunNext(pf, s, CommunityLines(cs), choices, i - 1);
      var t := Run(pf, s, CommunityLines(cs)[..i - 1], choices[..i - 1]);
      CommunityLineRun(pf, t, name, choices[i - 1]);
      CommunityStep(cs, t, i - 1, s.communities == cs);
    }
  }

  lemma CommunityStep(cs: seq<string>, t: Store, i: nat, restored: bool)
    requires DistinctCommunities(cs) && i < |cs| <= MAX_COMMUNITIES
    requires t.communities == if restored then cs else cs[..i]
    ensures CommunityLineEffect(t, cs[i]) == t.(communities := if restored then cs else cs[..i + 1])
  {
    if restored {
      assert HasCommunity(cs, cs[i]);
    } else {
      assert cs[..i + 1] == cs[..i] + [cs[i]];
      assert !HasCommunity(cs[..i], cs[i]);
    }
  }

  // ----- users

  lemma SameRowsHaveSameUsers(us: seq<UserRow>, vs: seq<UserRow>, name: string)
    requires multiset(us) == multiset(vs)
    ensures HasUser(us, name) == HasUser(vs, name)
  {
    assert forall u :: u in us <==> u in multiset(us);
    assert forall u :: u in vs <==> u in multiset(vs);
    HasUserOf(us, name);
    HasUserOf(vs, name);
  }

  function UserLineEffect(t: Store, u: UserRow, slot: nat): Store {
    if HasUser(t.users, u.name) then t else t.(users := InsertAt(t.users, slot, u))
  }

  lemma UserLineRun(pf: Platform, t: Store, u: UserRow, ch: Choice)
    requires GoodUser(u) && ch.outcome == Committed
    ensures Step(pf, t, Join(UserFields(u)), ch).0 == UserLineEffect(t, u, ch.slot)
  {
    UserLineParses(pf, u);
  }

  lemma UserStep(us: seq<UserRow>, t: Store, slot: nat, i: nat, restored: bool)
    requires DistinctUsers(us) && i < |us|
    requires multiset(t.users) == multiset(if restored then us else us[..i])
    ensures multiset(UserLineEffect(t, us[i], slot).users) == multiset(if restored then us else us[..i + 1])
  {
    var u := us[i];
    if restored {
      SameRowsHaveSameUsers(t.users, us, u.name);
    } else {
      SameRowsHaveSameUsers(t.users, us[..i], u.name);
      InsertAtElements(t.users, slot, u);
      assert us[..i + 1] == us[..i] + [u];
    }
  }

  lemma {:induction false} UsersRun(pf: Platform, us: seq<UserRow>, s: Store, choices: seq<Choice>, i: nat,
                                    restored: bool)
    requires GoodUsers(us) && DistinctUsers(us)
    requires multiset(s.users) == if restored then multiset(us) else multiset{}
    requires i <= |us| == |choices| && AllCommitted(choices)
    ensures var t := Run(pf, s, UserLines(us)[..i], choices[..i]);
      && t == s.(users := t.users)
      && multiset(t.users) == multiset(if restored then us else us[..i])
  {
    if i > 0 {
      UsersRun(pf, us, s, choices, i - 1, restored);
      RunNext(pf, s, UserLines(us), choices, i - 1);
      var t := Run(pf, s, UserLines(us)[..i - 1], choices[..i - 1]);
      UserLineRun(pf, t, us[i - 1], choices[i - 1]);
      UserStep(us, t, choices[i - 1].slot, i - 1, restored);
    }
  }

  // ----- trap receivers

  lemma {:induction false} PlainHeadRows(rows: seq<TrapRow>)
    ensures forall t :: t in PlainHead(rows) ==> t in rows && t.version != V3
    ensures !SomeV3(rows) ==> PlainHead(rows) == rows
  {
    if rows != [] {
      var n := |rows| - 1;
      PlainHeadRows(rows[..n]);
      assert rows == rows[..n] + [rows[n]];
      assert forall j :: 0 <= j < n ==> rows[..n][j] == rows[j];
    }
  }

  lemma {:induction false} PlainHeadHas(rows: seq<TrapRow>, i: nat)
    requires i < |rows| && !SomeV3(rows[..i + 1])
    ensures rows[i] in PlainHead(rows)
  {
    if i + 1 == |rows| {
      assert rows[..i + 1] == rows;
    } else {
      assert rows[..|rows| - 1][..i + 1] == rows[..i + 1];
      PlainHeadHas(rows[..|rows| - 1], i);
    }
  }

  lemma {:induction false} V3RowsOf(rows: seq<TrapRow>)
    ensures forall t :: t in V3Rows(rows) ==> t in rows && t.version == V3
  {
    if rows != [] {
      var n := |rows| - 1;
      V3RowsOf(rows[..n]);
      assert rows == rows[..n] + [rows[n]];
    }
  }

  lemma V3RowsLastOfPrefix(rows: seq<TrapRow>)
    requires rows != []
    ensures var n := |rows| - 1;
      && (SomeV3(rows) <==> SomeV3(rows[..n]) || rows[n].version == V3)
      && (V3RowsLast(rows) <==> V3RowsLast(rows[..n]) && (SomeV3(rows[..n]) ==> rows[n].version == V3))
  {
  }

  lemma RestorableStep(rows: seq<TrapRow>)
    requires rows != []
    ensures var n := |rows| - 1;
      && PlainHead(rows) == PlainHead(rows[..n]) + (if SomeV3(rows) then [] else [rows[n]])
      && V3Rows(rows) == V3Rows(rows[..n]) + (if rows[n].version == V3 then [rows[n]] else [])
      && (rows[n].version == V3 ==> SomeV3(rows))
  {
  }

  lemma {:induction false} RestorableCount(rows: seq<TrapRow>)
    ensures |PlainHead(rows)| + |V3Rows(rows)| <= |rows|
    ensures V3RowsLast(rows) <==> |PlainHead(rows)| + |V3Rows(rows)| == |rows|
  {
    if rows != [] {
      RestorableCount(rows[..|rows| - 1]);
      V3RowsLastOfPrefix(rows);
      RestorableStep(rows);
    }
  }

  lemma {:induction false} OrderedRowsRestored(rows: seq<TrapRow>)
    requires V3RowsLast(rows)
    ensures multiset(PlainHead(rows)) + multiset(V3Rows(rows)) == multiset(rows)
  {
    if rows != [] {
      var before, r := rows[..|rows| - 1], rows[|rows| - 1];
      OrderedStep(rows, before, r);
      OrderedRowsRestored(before);
      AddOne(PlainHead(before), V3Rows(before), before, r, r.version == V3);
    }
  }

  lemma OrderedStep(rows: seq<TrapRow>, before: seq<TrapRow>, r: TrapRow)
    requires V3RowsLast(rows) && rows != [] && before == rows[..|rows| - 1] && r == rows[|rows| - 1]
    ensures rows == before + [r] && V3RowsLast(before)
    ensures PlainHead(rows) == PlainHead(before) + if r.version == V3 then [] else [r]
    ensures V3Rows(rows) == V3Rows(before) + if r.version == V3 then [r] else []
  {
    V3RowsLastOfPrefix(rows);
    RestorableStep(rows);
  }

  lemma AddOne(head: seq<TrapRow>, v3: seq<TrapRow>, all: seq<TrapRow>, r: TrapRow, isV3: bool)
    requires multiset(head) + multiset(v3) == multiset(all)
    ensures multiset(head + if isV3 then [] else [r]) + multiset(v3 + if isV3 then [r] else []) == multiset(all + [r])
  {
    if isV3 {
      assert head + [] == head;
    } else {
      assert v3 + [] == v3;
    }
  }

  /** The rows replay can restore are all rows exactly when no other row follows a v3 row. */
  lemma RestorableRows(rows: seq<TrapRow>)
    ensures |PlainHead(rows)| + |V3Rows(rows)| <= |rows|
    ensures V3RowsLast(rows) <==> |PlainHead(rows)| + |V3Rows(rows)| == |rows|
    ensures V3RowsLast(rows) ==> multiset(PlainHead(rows)) + multiset(V3Rows(rows)) == multiset(rows)
  {
    RestorableCount(rows);
    if V3RowsLast(rows) {
      OrderedRowsRestored(rows);
    }
  }

  lemma SameRowsHaveSameTraps(ts: seq<TrapRow>, all: multiset<TrapRow>, t: TrapRow)
    requires multiset(ts) == all
    ensures HasTrap(ts, t) <==> exists u :: u in all && TrapKey(u) == TrapKey(t)
  {
  }

  function HostLineEffect(rows: seq<TrapRow>, s: Store, slot: nat, i: nat): Store
    requires i < |rows|
  {
    if (rows[i].version != V3 && SomeV3(rows[..i + 1])) || s.trapCount > MAX_TRAPS
       || (rows[i].version == V3 && !HasUser(s.users, rows[i].community)) || HasTrap(s.traps, rows[i])
    then s
    else s.(traps := InsertAt(s.traps, slot, rows[i]), trapCount := s.trapCount + 1)
  }

  lemma HostLineRun(pf: Platform, rows: seq<TrapRow>, s: Store, ch: Choice, i: nat)
    requires GoodTraps(pf, rows) && i < |rows| && ch.outcome == Committed
    ensures Step(pf, s, HostLine(rows, i), ch).0 == HostLineEffect(rows, s, ch.slot, i)
  {
    HostLineMeaning(pf, rows, i);
  }

  lemma EarlierRowsDiffer(rows: seq<TrapRow>, i: nat)
    requires DistinctTraps(rows) && i < |rows|
    ensures forall u :: u in PlainHead(rows[..i]) || u in V3Rows(rows[..i]) ==> TrapKey(u) != TrapKey(rows[i])
  {
    PlainHeadRows(rows[..i]);
    V3RowsOf(rows[..i]);
    forall u | u in rows[..i] ensures TrapKey(u) != TrapKey(rows[i]) {
      var j :| 0 <= j < i && rows[j] == u;
    }
  }

  lemma PlainHeadNext(rows: seq<TrapRow>, i: nat)
    requires i < |rows|
    ensures PlainHead(rows[..i + 1]) == PlainHead(rows[..i]) + if SomeV3(rows[..i + 1]) then [] else [rows[i]]
    ensures V3Rows(rows[..i + 1]) == V3Rows(rows[..i]) + if rows[i].version == V3 then [rows[i]] else []
    ensures rows[i].version == V3 ==> SomeV3(rows[..i + 1])
  {
    var seen := rows[..i + 1];
    assert seen[..i] == rows[..i] && seen[i] == rows[i];
  }

  /** A row whose key is new goes in; a row already there stays out. */
  lemma AddRow(s: Store, had: multiset<TrapRow>, r: TrapRow, slot: nat)
    requires multiset(s.traps) == had
    ensures |s.traps| == |had|
    ensures r in had ==> HasTrap(s.traps, r)
    ensures (forall u :: u in had ==> TrapKey(u) != TrapKey(r)) ==> !HasTrap(s.traps, r)
    ensures multiset(InsertAt(s.traps, slot, r)) == had + multiset{r}
    ensures |InsertAt(s.traps, slot, r)| == |s.traps| + 1
  {
    SameRowsHaveSameTraps(s.traps, had, r);
    InsertAtElements(s.traps, slot, r);
    assert |s.traps| == |multiset(s.traps)|;
  }

  lemma AdmittedNext(all: seq<TrapRow>, r: TrapRow)
    ensures |all| <= MAX_TRAPS ==> Admitted(all) == all && Admitted(all + [r]) == all + [r]
    ensures |all| > MAX_TRAPS ==> |Admitted(all)| == MAX_TRAPS + 1 && Admitted(all + [r]) == Admitted(all)
  {
  }

  /** A row the shell takes goes in behind `all`, if the counter lets it. */
  lemma AddAdmitted(rows: seq<TrapRow>, t: Store, all: seq<TrapRow>, slot: nat, i: nat)
    requires i < |rows| && (rows[i].version == V3 || !SomeV3(rows[..i + 1]))
    requires rows[i].version == V3 ==> HasUser(t.users, rows[i].community)
    requires forall u :: u in all ==> TrapKey(u) != TrapKey(rows[i])
    requires multiset(t.traps) == multiset(Admitted(all)) && t.trapCount == |t.traps|
    ensures var t' := HostLineEffect(rows, t, slot, i);
      && t' == t.(traps := t'.traps, trapCount := t'.trapCount)
      && multiset(t'.traps) == multiset(Admitted(all + [rows[i]])) && t'.trapCount == |t'.traps|
  {
    AdmittedNext(all, rows[i]);
    AddRow(t, multiset(Admitted(all)), rows[i], slot);
    assert |multiset(Admitted(all))| == |Admitted(all)|;
    assert forall u :: u in multiset(Admitted(all)) ==> u in Admitted(all) && u in all;
  }

  lemma HeadStep(rows: seq<TrapRow>, t: Store, slot: nat, i: nat)
    requires i < |rows| && t.users == []
    requires forall u :: u in PlainHead(rows[..i]) ==> TrapKey(u) != TrapKey(rows[i])
    requires multiset(t.traps) == multiset(Admitted(PlainHead(rows[..i]))) && t.trapCount == |t.traps|
    ensures var t' := HostLineEffect(rows, t, slot, i);
      && t' == t.(traps := t'.traps, trapCount := t'.trapCount)
      && multiset(t'.traps) == multiset(Admitted(PlainHead(rows[..i + 1]))) && t'.trapCount == |t'.traps|
  {
    PlainHeadNext(rows, i);
    if !SomeV3(rows[..i + 1]) {
      AddAdmitted(rows, t, PlainHead(rows[..i]), slot, i);
    } else {
      assert PlainHead(rows[..i]) + [] == PlainHead(rows[..i]);
    }
  }

  /** The v3 rows are refused while no user exists, the rows before them are accepted up to the limit. */
  lemma {:induction false} TrapsRunWithoutUsers(
      pf: Platform, rows: seq<TrapRow>, s: Store, choices: seq<Choice>, i: nat)
    requires GoodTraps(pf, rows) && DistinctTraps(rows)
    requires s.traps == [] && s.users == [] && s.trapCount == 0
    requires i <= |rows| == |choices| && AllCommitted(choices)
    ensures var t := Run(pf, s, TrapLines(rows)[..i], choices[..i]);
      && t == s.(traps := t.traps, trapCount := t.trapCount)
      && multiset(t.traps) == multiset(Admitted(PlainHead(rows[..i]))) && t.trapCount == |t.traps|
  {
    if i > 0 {
      TrapsRunWithoutUsers(pf, rows, s, choices, i - 1);
      RunNext(pf, s, TrapLines(rows), choices, i - 1);
      var t := Run(pf, s, TrapLines(rows)[..i - 1], choices[..i - 1]);
      HostLineRun(pf, rows, t, choices[i - 1], i - 1);
      EarlierRowsDiffer(rows, i - 1);
      HeadStep(rows, t, choices[i - 1].slot, i - 1);
    }
  }

  /** What is restored after line `i` of the second replay, before the limit. */
  function RestoredTo(rows: seq<TrapRow>, i: nat): seq<TrapRow>
    requires i <= |rows|
  {
    PlainHead(rows) + V3Rows(rows[..i])
  }

  lemma V3Step(rows: seq<TrapRow>, t: Store, slot: nat, i: nat)
    requires DistinctTraps(rows) && i < |rows| && rows[i].version == V3 && HasUser(t.users, rows[i].community)
    requires multiset(t.traps) == multiset(Admitted(RestoredTo(rows, i))) && t.trapCount == |t.traps|
    ensures var t' := HostLineEffect(rows, t, slot, i);
      && t' == t.(traps := t'.traps, trapCount := t'.trapCount)
      && multiset(t'.traps) == multiset(Admitted(RestoredTo(rows, i + 1))) && t'.trapCount == |t'.traps|
  {
    PlainHeadRows(rows);
    EarlierRowsDiffer(rows, i);
    PlainHeadNext(rows, i);
    assert RestoredTo(rows, i + 1) == RestoredTo(rows, i) + [rows[i]];
    AddAdmitted(rows, t, RestoredTo(rows, i), slot, i);
  }

  lemma OtherStep(rows: seq<TrapRow>, t: Store, slot: nat, i: nat)
    requires i < |rows| && rows[i].version != V3
    requires multiset(t.traps) == multiset(Admitted(RestoredTo(rows, i))) && t.trapCount == |t.traps|
    ensures HostLineEffect(rows, t, slot, i) == t && RestoredTo(rows, i + 1) == RestoredTo(rows, i)
  {
    PlainHeadNext(rows, i);
    assert V3Rows(rows[..i]) + [] == V3Rows(rows[..i]);
    if !SomeV3(rows[..i + 1]) {
      PlainHeadHas(rows, i);
      AdmittedNext(RestoredTo(rows, i), rows[i]);
      assert |multiset(t.traps)| == |t.traps| == |Admitted(RestoredTo(rows, i))|;
      if t.trapCount <= MAX_TRAPS {
        assert rows[i] in multiset(t.traps);
        assert rows[i] in t.traps;
      }
    }
  }

  lemma SecondStep(rows: seq<TrapRow>, t: Store, slot: nat, i: nat)
    requires DistinctTraps(rows) && TrapsHaveUsers(rows, t.users) && i < |rows|
    requires multiset(t.traps) == multiset(Admitted(RestoredTo(rows, i))) && t.trapCount == |t.traps|
    ensures var t' := HostLineEffect(rows, t, slot, i);
      && t' == t.(traps := t'.traps, trapCount := t'.trapCount)
      && multiset(t'.traps) == multiset(Admitted(RestoredTo(rows, i + 1))) && t'.trapCount == |t'.traps|
  {
    if rows[i].version == V3 {
      V3Step(rows, t, slot, i);
    } else {
      OtherStep(rows, t, slot, i);
    }
  }

  /** With every user in place, the v3 rows are added to the rows already restored, up to the limit. */
  lemma {:induction false} TrapsRunWithUsers(
      pf: Platform, rows: seq<TrapRow>, s: Store, choices: seq<Choice>, i: nat)
    requires GoodTraps(pf, rows) && DistinctTraps(rows) && TrapsHaveUsers(rows, s.users)
    requires multiset(s.traps) == multiset(Admitted(PlainHead(rows))) && s.trapCount == |s.traps|
    requires i <= |rows| == |choices| && AllCommitted(choices)
    ensures var t := Run(pf, s, TrapLines(rows)[..i], choices[..i]);
      && t == s.(traps := t.traps, trapCount := t.trapCount)
      && multiset(t.traps) == multiset(Admitted(RestoredTo(rows, i))) && t.trapCount == |t.traps|
  {
    if i == 0 {
      assert RestoredTo(rows, 0) == PlainHead(rows);
    } else {
      TrapsRunWithUsers(pf, rows, s, choices, i - 1);
      RunNext(pf, s, TrapLines(rows), choices, i - 1);
      var t := Run(pf, s, TrapLines(rows)[..i - 1], choices[..i - 1]);
      HostLineRun(pf, rows, t, choices[i - 1], i - 1);
      SecondStep(rows, t, choices[i - 1].slot, i - 1);
    }
  }

  // ----- the whole config

  lemma Whole<T, U>(a: seq<T>, b: seq<U>)
    ensures a[..|a|] == a && b[..|b|] == b
  {
  }

  lemma ReplaySettings(pf: Platform, st: Store, s: Store, choices: seq<Choice>)
    requires Stored(pf, st)
    requires |choices| == |SettingLines(Shown(st), SETTINGS)| && AllCommitted(choices)
    ensures Run(pf, s, SettingLines(Shown(st), SETTINGS), choices) ==
      s.(otherConfig := s.otherConfig + Picked(Shown(st), SETTINGS))
  {
    forall k | 0 <= k < |SETTINGS| ensures LineSets(pf, Shown(st), SETTINGS[k]) {
      ShownSettingSets(pf, st, k);
    }
    SettingsRun(pf, Shown(st), SETTINGS, s, choices);
  }

  lemma ReplayCommunities(pf: Platform, st: Store, s: Store, choices: seq<Choice>)
    requires Stored(pf, st) && (s.communities == [] || s.communities == st.communities)
    requires |choices| == |st.communities| && AllCommitted(choices)
    ensures Run(pf, s, CommunityLines(st.communities), choices) == s.(communities := st.communities)
  {
    var cs := st.communities;
    CommunitiesRun(pf, cs, s, choices, |cs|);
    Whole(CommunityLines(cs), choices);
    Whole(cs, cs);
  }

  /** The receivers one replay restores, and those a second one does. */
  function Restored(rows: seq<TrapRow>, again: bool): seq<TrapRow> {
    Admitted(PlainHead(rows) + if again then V3Rows(rows) else [])
  }

  /** A store without SNMP rows, or one that a replay of `st` has filled. */
  predicate ReplayedSoFar(st: Store, s: Store, again: bool) {
    && s.trapCount == |s.traps|
    && if again then
         s.communities == st.communities && multiset(s.users) == multiset(st.users)
         && multiset(s.traps) == multiset(Admitted(PlainHead(st.traps)))
       else
         s.communities == [] && s.users == [] && s.traps == []
  }

  lemma ReplayUsers(pf: Platform, st: Store, s: Store, choices: seq<Choice>, again: bool)
    requires Stored(pf, st)
    requires multiset(s.users) == if again then multiset(st.users) else multiset{}
    requires |choices| == |st.users| && AllCommitted(choices)
    ensures var t := Run(pf, s, UserLines(st.users), choices);
      t == s.(users := t.users) && multiset(t.users) == multiset(st.users)
  {
    var us := st.users;
    UsersRun(pf, us, s, choices, |us|, again);
    Whole(UserLines(us), choices);
    Whole(us, us);
  }

  lemma ReplayTraps(pf: Platform, st: Store, s: Store, choices: seq<Choice>, again: bool)
    requires Stored(pf, st) && s.trapCount == |s.traps|
    requires if again then multiset(s.users) == multiset(st.users) &&
      multiset(s.traps) == multiset(Admitted(PlainHead(st.traps)))
             else s.users == [] && s.traps == []
    requires |choices| == |st.traps| && AllCommitted(choices)
    ensures var t := Run(pf, s, TrapLines(st.traps), choices);
      && t == s.(traps := t.traps, trapCount := t.trapCount) && t.trapCount == |t.traps|
      && multiset(t.traps) == multiset(Restored(st.traps, again))
  {
    var rows := st.traps;
    Whole(TrapLines(rows), choices);
    Whole(rows, rows);
    assert PlainHead(rows) + [] == PlainHead(rows);
    if again {
      SameUsersServe(rows, st.users, s.users);
      TrapsRunWithUsers(pf, rows, s, choices, |rows|);
    } else {
      TrapsRunWithoutUsers(pf, rows, s, choices, |rows|);
    }
  }

  lemma CommunitiesAndTraps(pf: Platform, st: Store, s: Store, choices: seq<Choice>, again: bool)
    requires Stored(pf, st) && ReplayedSoFar(st, s, again)
    requires |choices| == |st.communities| + |st.traps| + |st.users| && AllCommitted(choices)
    ensures var t := Run(pf, s, CommunityLines(st.communities) + (TrapLines(st.traps) + UserLines(st.users)), choices);
      && t == s.(communities := st.communities, traps := t.traps, users := t.users, trapCount := t.trapCount)
      && multiset(t.users) == multiset(st.users) && t.trapCount == |t.traps|
      && multiset(t.traps) == multiset(Restored(st.traps, again))
  {
    var b, c, d := CommunityLines(st.communities), TrapLines(st.traps), UserLines(st.users);
    RunAppend(pf, s, b, c + d, choices);
    var rest := choices[|b|..];
    ReplayCommunities(pf, st, s, choices[..|b|]);
    var s1 := Run(pf, s, b, choices[..|b|]);
    RunAppend(pf, s1, c, d, rest);
    ReplayTraps(pf, st, s1, rest[..|c|], again);
    var s2 := Run(pf, s1, c, rest[..|c|]);
    ReplayUsers(pf, st, s2, rest[|c|..], again);
  }

  lemma Grouped(a: seq<string>, b: seq<string>, c: seq<string>, d: seq<string>)
    ensures a + b + c + d == a + (b + (c + d))
  {
  }

  /** One replay. From an empty store it brings back everything but the v3 receivers and the
      receivers printed after a v3 one; a second replay adds the v3 receivers. */
  lemma ReplayPass(pf: Platform, st: Store, s: Store, choices: seq<Choice>, again: bool)
    requires Stored(pf, st) && ReplayedSoFar(st, s, again)
    requires |choices| == |ConfigLines(st)| && AllCommitted(choices)
    ensures var t := Run(pf, s, ConfigLines(st), choices);
      && t.otherConfig == s.otherConfig + Picked(Shown(st), SETTINGS) && t.switchVersion == s.switchVersion
      && t.communities == st.communities && multiset(t.users) == multiset(st.users) && t.trapCount == |t.traps|
      && multiset(t.traps) == multiset(Restored(st.traps, again))
  {
    var a, b := SettingLines(Shown(st), SETTINGS), CommunityLines(st.communities);
    var c, d := TrapLines(st.traps), UserLines(st.users);
    Grouped(a, b, c, d);
    RunAppend(pf, s, a, b + (c + d), choices);
    ReplaySettings(pf, st, s, choices[..|a|]);
    var s1 := Run(pf, s, a, choices[..|a|]);
    assert ReplayedSoFar(st, s1, again);
    CommunitiesAndTraps(pf, st, s1, choices[|a|..], again);
  }

  lemma SameUsersServe(ts: seq<TrapRow>, us: seq<UserRow>, vs: seq<UserRow>)
    requires TrapsHaveUsers(ts, us) && multiset(us) == multiset(vs)
    ensures TrapsHaveUsers(ts, vs)
  {
    forall i | 0 <= i < |ts| && ts[i].version == V3 ensures HasUser(vs, ts[i].community) {
      SameRowsHaveSameUsers(us, vs, ts[i].community);
    }
  }

  predicate SameSetting(a: Store, b: Store, key: string) {
    (key in a.otherConfig <==> key in b.otherConfig) &&
    (key in a.otherConfig ==> a.otherConfig[key] == b.otherConfig[key])
  }

  lemma ReplayedSettings(st: Store, empty: Store, again: Store)
    requires Fresh(empty) && empty.switchVersion == again.switchVersion == st.switchVersion
    requires again.otherConfig == empty.otherConfig + Picked(Shown(st), SETTINGS)
    ensures SameSetting(again, st, AGENT_PORT) && SameSetting(again, st, LOCATION) && SameSetting(again, st, CONTACT)
    ensures EffectiveDescription(again) == EffectiveDescription(st) <==>
      !(st.switchVersion < EffectiveDescription(st))
  {
    assert SETTINGS[0].0 == AGENT_PORT && SETTINGS[1].0 == DESCRIPTION && SETTINGS[2].0 == LOCATION &&
      SETTINGS[3].0 == CONTACT;
    assert Listed(AGENT_PORT, SETTINGS) && Listed(DESCRIPTION, SETTINGS) && Listed(LOCATION, SETTINGS) &&
      Listed(CONTACT, SETTINGS);
  }

  /** Two replays in one new shell, on an empty store with the same switch version, restore every store the
      shells can have left, whatever positions the database gives the rows: all of it but a description that
      properly extends the switch version, the receivers printed after a v3 one, and those past the limit. */
  lemma ReplayTwice(pf: Platform, st: Store, empty: Store, first: seq<Choice>, second: seq<Choice>)
    requires Stored(pf, st) && Fresh(empty) && empty.switchVersion == st.switchVersion
    requires |first| == |second| == |ConfigLines(st)| && AllCommitted(first) && AllCommitted(second)
    ensures
      var once := Run(pf, empty, ConfigLines(st), first);
      var twice := Run(pf, once, ConfigLines(st), second);
      && SameSetting(twice, st, AGENT_PORT) && SameSetting(twice, st, LOCATION) && SameSetting(twice, st, CONTACT)
      && (EffectiveDescription(twice) == EffectiveDescription(st) <==> !(st.switchVersion < EffectiveDescription(st)))
      && twice.communities == st.communities
      && multiset(twice.users) == multiset(st.users)
      && multiset(once.traps) == multiset(Restored(st.traps, false))
      && multiset(twice.traps) == multiset(Restored(st.traps, true))
      && (multiset(twice.traps) == multiset(st.traps) <==> V3RowsLast(st.traps) && |st.traps| <= MAX_TRAPS + 1)
  {
    ReplayPass(pf, st, empty, first, false);
    assert PlainHead(st.traps) + [] == PlainHead(st.traps);
    var once := Run(pf, empty, ConfigLines(st), first);
    ReplayPass(pf, st, once, second, true);
    var twice := Run(pf, once, ConfigLines(st), second);
    TwiceIsOnce(empty.otherConfig, Picked(Shown(st), SETTINGS));
    ReplayedSettings(st, empty, twice);
    AllRestored(st.traps, twice.traps);
  }

  lemma TwiceIsOnce(base: map<string, string>, shown: map<string, string>)
    ensures base + shown + shown == base + shown
  {
  }

  lemma AllRestored(rows: seq<TrapRow>, restored: seq<TrapRow>)
    requires multiset(restored) == multiset(Restored(rows, true))
    ensures multiset(restored) == multiset(rows) <==> V3RowsLast(rows) && |rows| <= MAX_TRAPS + 1
  {
    var all := PlainHead(rows) + V3Rows(rows);
    RestorableRows(rows);
    assert |multiset(restored)| == |Restored(rows, true)| && |multiset(rows)| == |rows|;
  }

  // ----- stores that replay does not restore

  lemma V3LineRun(pf: Platform, s: Store, row: TrapRow, ch: Choice)
    requires GoodTrap(pf, row) && row.version == V3 && row.port == DEFAULT_TRAP_PORT
    requires s.traps == [] && s.trapCount == 0 && |s.users| == 1 && UserKey(s.users[0].name) == UserKey(row.community)
    requires ch.outcome == Committed
    ensures Step(pf, s, Join(HostFields(row, false, false, true)), ch).0 == s.(traps := [row], trapCount := 1)
  {
    V3HostLineParses(pf, row, false);
    V3RowAccepted(pf, s, row, ch);
    StepOfCommand(pf, s, Join(HostFields(row, false, false, true)), SetHost(row), ch);
  }

  lemma StepOfCommand(pf: Platform, s: Store, line: string, cmd: Command, ch: Choice)
    requires Parse(pf, line) == Some(cmd)
    ensures Step(pf, s, line, ch) == Perform(pf, s, cmd, ch)
  {
  }

  lemma V3RowAccepted(pf: Platform, s: Store, row: TrapRow, ch: Choice)
    requires pf.isValid(row.address) && ch.outcome == Committed
    requires s.traps == [] && s.trapCount == 0 && |s.users| == 1 && UserKey(s.users[0].name) == UserKey(row.community)
    ensures Perform(pf, s, SetHost(row), ch).0 == s.(traps := [row], trapCount := 1)
  {
  }

  lemma PlainLineRun(pf: Platform, s: Store, v3: TrapRow, plain: TrapRow, ch: Choice)
    requires GoodTrap(pf, plain) && plain.version == V2c && plain.port == DEFAULT_TRAP_PORT &&
      plain.community == DEFAULT_COMMUNITY
    requires s.traps == [v3] && v3.version == V3 && s.trapCount == 1
    requires ch == Choice(Committed, 1)
    ensures Step(pf, s, Join(HostFields(plain, false, false, false)), ch).0 == s.(traps := [v3, plain], trapCount := 2)
  {
    CommunityHostLineParses(pf, plain, false, false);
    StepOfCommand(pf, s, Join(HostFields(plain, false, false, false)), SetHost(plain), ch);
    assert InsertAt([v3], 1, plain) == [v3, plain];
  }

  lemma RunTwo(pf: Platform, s: Store, first: string, second: string, a: Choice, b: Choice)
    ensures Run(pf, s, [first, second], [a, b]) == Step(pf, Step(pf, s, first, a).0, second, b).0
  {
    assert [first, second][1..] == [second] && [a, b][1..] == [b] && [second][1..] == [] && [b][1..] == [];
    var s1 := Step(pf, s, first, a).0;
    assert Run(pf, s1, [second], [b]) == Run(pf, Step(pf, s1, second, b).0, [], []);
  }

  lemma RunThree(pf: Platform, s: Store, lines: seq<string>, choices: seq<Choice>)
    requires |lines| == |choices| == 3
    ensures Run(pf, s, lines, choices) ==
      Step(pf, Step(pf, Step(pf, s, lines[0], choices[0]).0, lines[1], choices[1]).0, lines[2], choices[2]).0
  {
    assert lines[..0] == [] && choices[..0] == [] && lines[..3] == lines && choices[..3] == choices;
    RunNext(pf, s, lines, choices, 0);
    RunNext(pf, s, lines, choices, 1);
    RunNext(pf, s, lines, choices, 2);
  }

  lemma FirstUserRun(pf: Platform, s: Store, user: UserRow, ch: Choice)
    requires GoodUser(user) && s.users == [] && ch.outcome == Committed
    ensures Step(pf, s, Join(UserFields(user)), ch).0 == s.(users := [user])
  {
    UserLineRun(pf, s, user, ch);
    assert InsertAt<UserRow>([], ch.slot, user) == [user];
  }

  function ReceiverLines(user: UserRow, v3: TrapRow, plain: TrapRow): seq<string> {
    [Join(UserFields(user)), Join(HostFields(v3, false, false, true)), Join(HostFields(plain, false, false, false))]
  }

  lemma ReceiverLinesRun(pf: Platform, empty: Store, user: UserRow, v3: TrapRow, plain: TrapRow)
    requires Fresh(empty) && GoodUser(user) && GoodTrap(pf, v3) && GoodTrap(pf, plain)
    requires v3.version == V3 && v3.port == DEFAULT_TRAP_PORT && v3.community == user.name
    requires plain.version == V2c && plain.port == DEFAULT_TRAP_PORT && plain.community == DEFAULT_COMMUNITY
    ensures Reachable(pf, empty.(traps := [v3, plain], trapCount := 2, users := [user]))
  {
    var lines := ReceiverLines(user, v3, plain);
    var choices := [Choice(Committed, 0), Choice(Committed, 0), Choice(Committed, 1)];
    FirstUserRun(pf, empty, user, choices[0]);
    var s1 := empty.(users := [user]);
    V3LineRun(pf, s1, v3, choices[1]);
    PlainLineRun(pf, s1.(traps := [v3], trapCount := 1), v3, plain, choices[2]);
    RunThree(pf, empty, lines, choices);
  }

  /** Three lines after which a receiver is printed behind a v3 one: the second replay lacks it. */
  lemma SomeReceiverIsLost(pf: Platform, empty: Store, user: UserRow, address: string)
    requires Fresh(empty) && GoodUser(user) && IsWord(address) && pf.isAddress(address) && pf.isValid(address)
    ensures
      var v3 := TrapRow(address, DEFAULT_TRAP_PORT, user.name, V3, Trap);
      var plain := TrapRow(address, DEFAULT_TRAP_PORT, DEFAULT_COMMUNITY, V2c, Trap);
      var st := empty.(traps := [v3, plain], trapCount := 2, users := [user]);
      Reachable(pf, st) && !V3RowsLast(st.traps) && PlainHead(st.traps) + V3Rows(st.traps) == [v3]
  {
    var v3 := TrapRow(address, DEFAULT_TRAP_PORT, user.name, V3, Trap);
    var plain := TrapRow(address, DEFAULT_TRAP_PORT, DEFAULT_COMMUNITY, V2c, Trap);
    ReceiverLinesRun(pf, empty, user, v3, plain);
    OnlyTheV3RowIsRestorable(v3, plain);
  }

  lemma OnlyTheV3RowIsRestorable(v3: TrapRow, plain: TrapRow)
    requires v3.version == V3 && plain.version != V3
    ensures !V3RowsLast([v3, plain]) && PlainHead([v3, plain]) + V3Rows([v3, plain]) == [v3]
  {
    var rows := [v3, plain];
    assert rows[0].version == V3 && rows[1].version != V3;
    RestorableStep(rows);
    assert rows[..1] == [v3];
    RestorableStep([v3]);
    assert [v3][..0] == [];
    assert SomeV3(rows) && SomeV3([v3]) by {
      assert [v3][0].version == V3;
    }
  }

  /** Any typed description that properly extends the switch version is lost. */
  lemma SomeDescriptionIsLost(pf: Platform, empty: Store, text: string)
    requires Fresh(empty) && IsPhrase(text) && empty.switchVersion < text
    ensures var st := empty.(otherConfig := empty.otherConfig[DESCRIPTION := text]);
      Reachable(pf, st) && st.switchVersion < EffectiveDescription(st)
  {
    var line, ch := Join(["snmp-server", "system-description", text]), Choice(Committed, 0);
    SettingLineParses(pf, "system-description", text);
    var st := empty.(otherConfig := empty.otherConfig[DESCRIPTION := text]);
    assert Run(pf, empty, [line], [ch]) == st;
  }

  function Receiver(address: string, port: nat): TrapRow {
    TrapRow(address, port, DEFAULT_COMMUNITY, V2c, Trap)
  }

  /** `n` receivers at one address, on ports 1 to `n`. */
  predicate OnFirstPorts(traps: seq<TrapRow>, address: string, n: nat) {
    |traps| == n && forall i :: 0 <= i < n ==> traps[i] == Receiver(address, i + 1)
  }

  lemma OneMoreReceiver(pf: Platform, s: Store, address: string, n: nat)
    requires IsWord(address) && pf.isAddress(address) && pf.isValid(address) && n < 65535
    requires OnFirstPorts(s.traps, address, n) && s.trapCount == 0
    ensures var line := Join(HostFields(Receiver(address, n + 1), false, true, false));
      OnFirstPorts(Step(pf, s, line, Choice(Committed, n)).0.traps, address, n + 1)
  {
    var row, ch := Receiver(address, n + 1), Choice(Committed, n);
    CommunityHostLineParses(pf, row, false, true);
    StepOfCommand(pf, s, Join(HostFields(row, false, true, false)), SetHost(row), ch);
    assert InsertAt(s.traps, n, row) == s.traps + [row];
  }

  lemma OneMoreShell(pf: Platform, start: Store, before: seq<Script>, line: string, ch: Choice)
    requires Answered(before)
    ensures var scripts := before + [Script([line], [ch])];
      Answered(scripts) &&
      RunShells(pf, start, scripts) == Step(pf, RunShells(pf, start, before).(trapCount := 0), line, ch).0
  {
    var scripts := before + [Script([line], [ch])];
    assert scripts[..|before|] == before;
    var s := RunShells(pf, start, before).(trapCount := 0);
    assert Run(pf, s, [line], [ch]) == Step(pf, s, line, ch).0;
  }

  /** Shells that add one receiver each: the table grows far past the limit of one shell. */
  lemma {:induction false} TablesGrow(pf: Platform, empty: Store, address: string, n: nat)
    returns (scripts: seq<Script>)
    requires Fresh(empty) && IsWord(address) && pf.isAddress(address) && pf.isValid(address) && n <= 65535
    ensures Answered(scripts) && ReachableByShells(pf, RunShells(pf, empty, scripts))
    ensures OnFirstPorts(RunShells(pf, empty, scripts).traps, address, n)
  {
    if n == 0 {
      scripts := [];
    } else {
      var before := TablesGrow(pf, empty, address, n - 1);
      var line, ch := Join(HostFields(Receiver(address, n), false, true, false)), Choice(Committed, n - 1);
      OneMoreReceiver(pf, RunShells(pf, empty, before).(trapCount := 0), address, n - 1);
      OneMoreShell(pf, empty, before, line, ch);
      scripts := before + [Script([line], [ch])];
    }
  }
}
