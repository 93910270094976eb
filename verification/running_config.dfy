/** The printer of the running config, and what each printed line means to the shell. */
module RunningConfig {
  import opened Words
  import opened SnmpStore
  import opened CommandGrammar
  import opened StoreInvariants

  /** The three flags of the printer at a row: once a row has set one, it stays set. */
  predicate SomeCommunity(rows: seq<TrapRow>) {
    exists j :: 0 <= j < |rows| && rows[j].community != DEFAULT_COMMUNITY
  }

  predicate SomePort(rows: seq<TrapRow>) {
    exists j :: 0 <= j < |rows| && rows[j].port != DEFAULT_TRAP_PORT
  }

  predicate SomeV3(rows: seq<TrapRow>) {
    exists j :: 0 <= j < |rows| && rows[j].version == V3
  }

  function HostFields(r: TrapRow, withCommunity: bool, withPort: bool, v3: bool): seq<string> {
    ["snmp-server", "host", r.address, r.kind.Text(), "version", r.version.Text()]
    + (if v3 then ["user", r.community] else if withCommunity then ["community", r.community] else [])
    + (if withPort then ["port", Decimal(r.port)] else [])
  }

  function HostLine(rows: seq<TrapRow>, i: nat): string
    requires i < |rows|
  {
    var seen := rows[..i + 1];
    Join(HostFields(rows[i], SomeCommunity(seen), SomePort(seen), SomeV3(seen)))
  }

  function TrapLines(rows: seq<TrapRow>): seq<string> {
    seq(|rows|, i requires 0 <= i < |rows| => HostLine(rows, i))
  }

  /** The part of a user line after the name. */
  function UserTail(u: UserRow): seq<string> {
    if u.auth == NoAuth then [] else
    ["auth", u.auth.Text(), "auth-pass", u.authPass]
    + (if u.priv == NoPriv then [] else ["priv", u.priv.Text(), "priv-pass", u.privPass])
  }

  function UserFields(u: UserRow): seq<string> {
    ["snmpv3", "user", u.name] + UserTail(u)
  }

  function UserLines(us: seq<UserRow>): seq<string> {
    seq(|us|, i requires 0 <= i < |us| => Join(UserFields(us[i])))
  }

  function CommunityLines(cs: seq<string>): seq<string> {
    seq(|cs|, i requires 0 <= i < |cs| => Join(["snmp-server", "community", cs[i]]))
  }

  /** A description the switch version is a prefix of counts as not configured. */
  predicate DescriptionShown(st: Store) {
    DESCRIPTION in st.otherConfig && !(st.switchVersion <= st.otherConfig[DESCRIPTION])
  }

  /** The settings the printer looks at. */
  function Shown(st: Store): map<string, string> {
    if DescriptionShown(st) then st.otherConfig else st.otherConfig - {DESCRIPTION}
  }

  /** The settings in printing order, with the word each is configured by. */
  const SETTINGS: seq<(string, string)> :=
    [(AGENT_PORT, "agent-port"), (DESCRIPTION, "system-description"),
     (LOCATION, "system-location"), (CONTACT, "system-contact")]

  function SettingLine(config: map<string, string>, setting: (string, string)): seq<string> {
    if setting.0 in config then [Join(["snmp-server", setting.1, config[setting.0]])] else []
  }

  function SettingLines(config: map<string, string>, settings: seq<(string, string)>): seq<string> {
    if settings == [] then [] else SettingLine(config, settings[0]) + SettingLines(config, settings[1..])
  }

  function ConfigLines(st: Store): seq<string> {
    SettingLines(Shown(st), SETTINGS) + CommunityLines(st.communities) + TrapLines(st.traps) + UserLines(st.users)
  }

  // ----- the printer

  /** The line of one row under the flags as they stand. */
  method PrintTrap(row: TrapRow, communityNotDefault: bool, trapPortNotDefault: bool, isV3: bool) returns (line: string)
    ensures line == Join(HostFields(row, communityNotDefault, trapPortNotDefault, isV3))
  {
    var head := ["snmp-server", "host", row.address, row.kind.Text(), "version", row.version.Text()];
    var fields;
    if !isV3 {
      if communityNotDefault && trapPortNotDefault {
        fields := head + ["community", row.community, "port", Decimal(row.port)];
      } else if communityNotDefault {
        fields := head + ["community", row.community];
      } else if trapPortNotDefault {
        fields := head + ["port", Decimal(row.port)];
      } else {
        fields := head;
      }
    } else {
      if trapPortNotDefault {
        fields := head + ["user", row.community, "port", Decimal(row.port)];
      } else {
        fields := head + ["user", row.community];
      }
    }
    assert fields == HostFields(row, communityNotDefault, trapPortNotDefault, isV3);
    line := Join(fields);
  }

  lemma FlagsNext(rows: seq<TrapRow>, i: nat)
    requires i < |rows|
    ensures SomeCommunity(rows[..i + 1]) <==> SomeCommunity(rows[..i]) || rows[i].community != DEFAULT_COMMUNITY
    ensures SomePort(rows[..i + 1]) <==> SomePort(rows[..i]) || rows[i].port != DEFAULT_TRAP_PORT
    ensures SomeV3(rows[..i + 1]) <==> SomeV3(rows[..i]) || rows[i].version == V3
  {
  }

  method PrintTraps(rows: seq<TrapRow>) returns (lines: seq<string>)
    ensures lines == TrapLines(rows)
  {
    lines := [];
    var trapPortNotDefault, communityNotDefault, isV3 := false, false, false;
    for i := 0 to |rows|
      invariant communityNotDefault == SomeCommunity(rows[..i])
      invariant trapPortNotDefault == SomePort(rows[..i])
      invariant isV3 == SomeV3(rows[..i])
      invariant lines == TrapLines(rows)[..i]
    {
      FlagsNext(rows, i);
      if rows[i].community != DEFAULT_COMMUNITY {
        communityNotDefault := true;
      }
      if rows[i].port != DEFAULT_TRAP_PORT {
        trapPortNotDefault := true;
      }
      if rows[i].version == V3 {
        isV3 := true;
      }
      var line := PrintTrap(rows[i], communityNotDefault, trapPortNotDefault, isV3);
      lines := lines + [line];
    }
  }

  method PrintUsers(rows: seq<UserRow>) returns (lines: seq<string>)
    ensures lines == UserLines(rows)
  {
    lines := [];
    for i := 0 to |rows|
      invariant lines == UserLines(rows)[..i]
    {
      var row := rows[i];
      var authNotDefault := row.auth.Text() != "none";
      var privNotDefault := row.priv.Text() != "none";
      var fields;
      if authNotDefault && privNotDefault {
        fields := ["snmpv3", "user", row.name, "auth", row.auth.Text(), "auth-pass", row.authPass,
                   "priv", row.priv.Text(), "priv-pass", row.privPass];
      } else if authNotDefault {
        fields := ["snmpv3", "user", row.name, "auth", row.auth.Text(), "auth-pass", row.authPass];
      } else {
        fields := ["snmpv3", "user", row.name];
      }
      assert fields == UserFields(row);
      lines := lines + [Join(fields)];
    }
  }

  method PrintSettings(st: Store) returns (lines: seq<string>)
    ensures lines == SettingLines(Shown(st), SETTINGS)
  {
    var port, location, contact := AGENT_PORT in st.otherConfig, LOCATION in st.otherConfig, CONTACT in st.otherConfig;
    var descriptionConfigured := false;
    if DESCRIPTION in st.otherConfig {
      var n := |st.switchVersion|;
      if Clip(st.otherConfig[DESCRIPTION], n) != Clip(st.switchVersion, n) {
        descriptionConfigured := true;
      }
    }
    assert descriptionConfigured == DescriptionShown(st);
    lines := [];
    if port {
      lines := lines + [Join(["snmp-server", "agent-port", st.otherConfig[AGENT_PORT]])];
    }
    ghost var m := Shown(st);
    assert lines == SettingLine(m, SETTINGS[0]);
    if descriptionConfigured {
      lines := lines + [Join(["snmp-server", "system-description", st.otherConfig[DESCRIPTION]])];
    }
    assert lines == SettingLine(m, SETTINGS[0]) + SettingLine(m, SETTINGS[1]);
    if location {
      lines := lines + [Join(["snmp-server", "system-location", st.otherConfig[LOCATION]])];
    }
    assert lines == SettingLine(m, SETTINGS[0]) + SettingLine(m, SETTINGS[1]) + SettingLine(m, SETTINGS[2]);
    if contact {
      lines := lines + [Join(["snmp-server", "system-contact", st.otherConfig[CONTACT]])];
    }
    FourSettings(m);
  }

  lemma FourSettings(m: map<string, string>)
    ensures SettingLines(m, SETTINGS) ==
      SettingLine(m, SETTINGS[0]) + SettingLine(m, SETTINGS[1]) + SettingLine(m, SETTINGS[2]) +
        SettingLine(m, SETTINGS[3])
  {
    var a, b, c, d := SETTINGS[0], SETTINGS[1], SETTINGS[2], SETTINGS[3];
    assert SETTINGS[1..] == [b, c, d] && [b, c, d][1..] == [c, d] && [c, d][1..] == [d] && [d][1..] == [];
    assert SettingLines(m, [d]) == SettingLine(m, d) + SettingLines(m, []);
    assert SettingLines(m, [c, d]) == SettingLine(m, c) + SettingLine(m, d);
    assert SettingLines(m, [b, c, d]) == SettingLine(m, b) + SettingLines(m, [c, d]);
  }

  method PrintCommunities(cs: seq<string>) returns (lines: seq<string>)
    ensures lines == CommunityLines(cs)
  {
    lines := [];
    var i := 0;
    while i < |cs|
      invariant 0 <= i <= |cs|
      invariant lines == CommunityLines(cs)[..i]
    {
      lines := lines + [Join(["snmp-server", "community", cs[i]])];
      i := i + 1;
    }
  }

  method PrintRunningConfig(st: Store) returns (lines: seq<string>)
    ensures lines == ConfigLines(st)
  {
    lines := PrintSettings(st);
    var communityLines := PrintCommunities(st.communities);
    var trapLines := PrintTraps(st.traps);
    var userLines := PrintUsers(st.users);
    lines := lines + communityLines + trapLines + userLines;
  }

  // ----- what the shell makes of each line

  lemma SettingLineParses(pf: Platform, word: string, value: string)
    requires LineKey(word).Some? && IsWord(word) && IsPhrase(value)
    ensures Parse(pf, Join(["snmp-server", word, value])) == Some(SetConfig(LineKey(word).value, value))
  {
    var head := ["snmp-server", word];
    assert ["snmp-server", word, value] == head + [value];
    SplitOfJoin(head, value);
    assert (head + Split(value))[2..] == Split(value);
  }

  lemma PortLineParses(pf: Platform, value: string)
    requires IsPort(value)
    ensures Parse(pf, Join(["snmp-server", "agent-port", value])) == Some(SetConfig(AGENT_PORT, value))
  {
    SplitOfWords(["snmp-server", "agent-port", value]);
  }

  lemma CommunityLineParses(pf: Platform, name: string)
    requires IsWord(name)
    ensures Parse(pf, Join(["snmp-server", "community", name])) == Some(SetCommunity(name))
  {
    SplitOfWords(["snmp-server", "community", name]);
  }

  lemma UserTailParses(u: UserRow)
    requires GoodUser(u)
    ensures UserArguments(UserTail(u)).Some? && NewUser(u.name, UserArguments(UserTail(u)).value) == u
  {
  }

  lemma UserWordsParse(pf: Platform, name: string, tail: seq<string>)
    requires UserArguments(tail).Some?
    ensures ParseWords(pf, ["snmpv3", "user", name] + tail) == Some(SetUser(name, UserArguments(tail).value))
  {
  }

  lemma UserFieldsSplit(u: UserRow)
    requires GoodUser(u)
    ensures Split(Join(UserFields(u))) == UserFields(u)
  {
    assert AllWords(["snmpv3", "user", u.name]);
    assert AllWords(UserTail(u));
    SplitOfWords(UserFields(u));
  }

  lemma UserLineParses(pf: Platform, u: UserRow)
    requires GoodUser(u)
    ensures Parse(pf, Join(UserFields(u))).Some?
    ensures var cmd := Parse(pf, Join(UserFields(u))).value;
      cmd.SetUser? && cmd.name == u.name && NewUser(u.name, cmd.credentials) == u
  {
    UserFieldsSplit(u);
    UserTailParses(u);
    UserWordsParse(pf, u.name, UserTail(u));
  }

  lemma HostFieldsSplit(pf: Platform, r: TrapRow, c: bool, p: bool, v3: bool)
    requires GoodTrap(pf, r)
    ensures Split(Join(HostFields(r, c, p, v3))) == HostFields(r, c, p, v3)
  {
    NumberOfDecimal(r.port);
    SplitOfWords(HostFields(r, c, p, v3));
  }

  /** Before the first v3 row, flags left set by earlier rows only make defaults explicit. */
  lemma CommunityHostLineParses(pf: Platform, r: TrapRow, c: bool, p: bool)
    requires GoodTrap(pf, r) && r.version != V3
    requires r.community != DEFAULT_COMMUNITY ==> c
    requires r.port != DEFAULT_TRAP_PORT ==> p
    ensures Parse(pf, Join(HostFields(r, c, p, false))) == Some(SetHost(r))
  {
    var ws := HostFields(r, c, p, false);
    HostFieldsSplit(pf, r, c, p, false);
    NumberOfDecimal(r.port);
    var rest := (if c then ["community", r.community] else []) + (if p then ["port", Decimal(r.port)] else []);
    assert ws[2..][4..] == rest;
    var port := if p then Some(r.port) else None;
    assert Keywords([], Some(r.community), port) == Some((Some(r.community), port));
    if c {
      assert rest[2..] == if p then ["port", Decimal(r.port)] else [];
      KeywordsPort(r.port, p, Some(r.community));
    } else {
      assert rest == if p then ["port", Decimal(r.port)] else [];
      KeywordsPort(r.port, p, None);
    }
  }

  lemma KeywordsPort(port: nat, p: bool, community: Option<string>)
    requires 1 <= port <= 65535
    ensures Keywords(if p then ["port", Decimal(port)] else [], community, None) ==
      Some((community, if p then Some(port) else None))
  {
    NumberOfDecimal(port);
    if p {
      var ws := ["port", Decimal(port)];
      assert ws[2..] == [];
      assert ws[0] != "community";
    }
  }

  lemma V3HostLineParses(pf: Platform, r: TrapRow, p: bool)
    requires GoodTrap(pf, r) && r.version == V3
    requires r.port != DEFAULT_TRAP_PORT ==> p
    ensures Parse(pf, Join(HostFields(r, false, p, true))) == Some(SetHost(r))
  {
    var ws := HostFields(r, false, p, true);
    HostFieldsSplit(pf, r, false, p, true);
    NumberOfDecimal(r.port);
    assert ws[2..][6..] == if p then ["port", Decimal(r.port)] else [];
  }

  /** After a v3 row, a community receiver is printed with `user`, which its pattern does not accept. */
  lemma MixedHostLineIsRejected(pf: Platform, r: TrapRow, p: bool)
    requires GoodTrap(pf, r) && r.version != V3
    ensures Parse(pf, Join(HostFields(r, false, p, true))) == None
  {
    var ws := HostFields(r, false, p, true);
    HostFieldsSplit(pf, r, false, p, true);
    assert ws[2..][4] == "user";
    assert ws[2..][4..][0] == "user";
    assert "user"[0] == 'u' && "port"[0] == 'p';
  }

  /** What replaying printed trap line `i` asks for, whatever the other rows. */
  lemma HostLineMeaning(pf: Platform, rows: seq<TrapRow>, i: nat)
    requires GoodTraps(pf, rows) && i < |rows|
    ensures Parse(pf, HostLine(rows, i)) ==
      if rows[i].version != V3 && SomeV3(rows[..i + 1]) then None else Some(SetHost(rows[i]))
  {
    var r, seen := rows[i], rows[..i + 1];
    assert seen[i] == r;
    var c, p, v3 := SomeCommunity(seen), SomePort(seen), SomeV3(seen);
    if !v3 {
      CommunityHostLineParses(pf, r, c, p);
    } else {
      assert HostFields(r, c, p, true) == HostFields(r, false, p, true);
      if r.version == V3 {
        V3HostLineParses(pf, r, p);
      } else {
        MixedHostLineIsRejected(pf, r, p);
      }
    }
  }
}
