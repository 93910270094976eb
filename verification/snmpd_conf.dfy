/** The daemon that keeps snmpd.conf in step with the database. */
module SnmpdConf {
  import opened Words
  import opened SnmpStore
  import opened EngineId

  /** The columns snmpd.conf is rendered from. */
  datatype Inputs = Inputs(
    otherConfig: map<string, string>, switchVersion: string, communities: seq<string>,
    users: seq<UserRow>, mac: string)

  datatype Directive =
    | AgentAddress(port: string)
    | SysDescr(text: string)
    | SysContact(text: string)
    | SysLocation(text: string)
    | SysObjectID(oid: string)
    | SysServices(services: nat)
    | RoCommunity(name: string)
    | CreateUser(name: string, auth: Option<(string, string)>, priv: Option<(string, string)>)
    | RoUser(name: string, level: string)
    | EngineID(text: string)
    | Master(protocol: string)
    | AgentXSocket(path: string)

  function Setting(config: map<string, string>, key: string, default: string): string {
    if key in config then config[key] else default
  }

  function SystemPart(inputs: Inputs): seq<Directive> {
    [AgentAddress(Setting(inputs.otherConfig, AGENT_PORT, "161")),
     SysDescr(Setting(inputs.otherConfig, DESCRIPTION, inputs.switchVersion)),
     SysContact(Setting(inputs.otherConfig, CONTACT, "\"\"")),
     SysLocation(Setting(inputs.otherConfig, LOCATION, "\"\"")),
     SysObjectID("1.3.6.1.4.1.47267"), SysServices(74)]
  }

  function CommunityPart(cs: seq<string>): seq<Directive> {
    if cs == [] then [RoCommunity("public")]
    else seq(|cs|, i requires 0 <= i < |cs| => RoCommunity(cs[i]))
  }

  function UserPart(u: UserRow): seq<Directive> {
    var auth := if u.auth == Md5 then "MD5" else "SHA";
    var priv := if u.priv == Aes then "AES" else "DES";
    if u.auth == NoAuth then [CreateUser(u.name, None, None), RoUser(u.name, "")]
    else if u.priv == NoPriv then [CreateUser(u.name, Some((auth, u.authPass)), None), RoUser(u.name, "auth")]
    else [CreateUser(u.name, Some((auth, u.authPass)), Some((priv, u.privPass))), RoUser(u.name, "priv")]
  }

  function UsersPart(us: seq<UserRow>): seq<Directive> {
    if us == [] then [] else
    var n := |us| - 1;
    UsersPart(us[..n]) + UserPart(us[n])
  }

  /** The directives of the file, in order. */
  function Render(inputs: Inputs): seq<Directive> {
    SystemPart(inputs) + CommunityPart(inputs.communities) + UsersPart(inputs.users)
    + [EngineID(EngineIdText(inputs.mac)), Master("agentx"), AgentXSocket("/var/agentx/master")]
  }

  method WriteSystem(inputs: Inputs) returns (file: seq<Directive>)
    ensures file == SystemPart(inputs)
  {
    var config := inputs.otherConfig;
    file := [AgentAddress(if AGENT_PORT in config then config[AGENT_PORT] else "161")];
    file := file + [SysDescr(if DESCRIPTION in config then config[DESCRIPTION] else inputs.switchVersion)];
    file := file + [SysContact(if CONTACT in config then config[CONTACT] else "\"\"")];
    file := file + [SysLocation(if LOCATION in config then config[LOCATION] else "\"\"")];
    file := file + [SysObjectID("1.3.6.1.4.1.47267")];
    file := file + [SysServices(74)];
  }

  method WriteCommunities(cs: seq<string>) returns (file: seq<Directive>)
    ensures file == CommunityPart(cs)
  {
    if cs == [] {
      return [RoCommunity("public")];
    }
    file := [];
    for i := 0 to |cs|
      invariant file == CommunityPart(cs)[..i]
    {
      file := file + [RoCommunity(cs[i])];
    }
  }

  /** `auth` and `priv` keep their value from row to row, but each row that uses one sets it first. */
  method WriteUsers(us: seq<UserRow>) returns (file: seq<Directive>)
    ensures file == UsersPart(us)
  {
    file := [];
    var auth, priv := "", "";
    for i := 0 to |us|
      invariant file == UsersPart(us[..i])
    {
      var row := us[i];
      assert us[..i + 1][..i] == us[..i];
      ghost var before := file;
      if row.auth != NoAuth {
        auth := if row.auth == Md5 then "MD5" else "SHA";
        if row.priv != NoPriv {
          priv := if row.priv == Aes then "AES" else "DES";
          file := file + [CreateUser(row.name, Some((auth, row.authPass)), Some((priv, row.privPass)))];
          file := file + [RoUser(row.name, "priv")];
        } else {
          file := file + [CreateUser(row.name, Some((auth, row.authPass)), None)];
          file := file + [RoUser(row.name, "auth")];
        }
      } else {
        file := file + [CreateUser(row.name, None, None)];
        file := file + [RoUser(row.name, "")];
      }
      assert file == before + UserPart(row);
    }
    assert us[..|us|] == us;
  }

  method GenerateSnmpdConf(inputs: Inputs) returns (file: seq<Directive>)
    ensures file == Render(inputs)
  {
    file := WriteSystem(inputs);
    var part := WriteCommunities(inputs.communities);
    file := file + part;
    part := WriteUsers(inputs.users);
    file := file + part;
    file := file + [EngineID(EngineIdText(inputs.mac)), Master("agentx"), AgentXSocket("/var/agentx/master")];
  }

  // ----- when the file is written

  /** The local copy of the database, with the sequence number of the last change of each column the
      daemon asks about, and the daemon's own globals. */
  datatype Daemon = Daemon(
    db: Inputs, curCfg: int, seqno: nat,
    usersChanged: nat, communitiesChanged: nat, otherConfigChanged: nat, switchVersionChanged: nat,
    idlSeqno: nat, systemConfigured: bool, conf: Option<seq<Directive>>)

  /** A batch of changes: the new contents, and the columns the change macros will report. */
  datatype Change = Change(
    db: Inputs, curCfg: int, users: bool, communities: bool, otherConfig: bool, switchVersion: bool)

  /** Only the columns reported as changed can differ; the MAC is not reported. */
  predicate Reports(d: Daemon, c: Change) {
    && (!c.users ==> c.db.users == d.db.users)
    && (!c.communities ==> c.db.communities == d.db.communities)
    && (!c.otherConfig ==> c.db.otherConfig == d.db.otherConfig)
    && (!c.switchVersion ==> c.db.switchVersion == d.db.switchVersion)
  }

  function Receive(d: Daemon, c: Change): Daemon {
    var now := d.seqno + 1;
    d.(db := c.db, curCfg := c.curCfg, seqno := now,
       usersChanged := if c.users then now else d.usersChanged,
       communitiesChanged := if c.communities then now else d.communitiesChanged,
       otherConfigChanged := if c.otherConfig then now else d.otherConfigChanged,
       switchVersionChanged := if c.switchVersion then now else d.switchVersionChanged)
  }

  predicate Configured(d: Daemon) {
    d.systemConfigured || d.curCfg > 0
  }

  /** The user table is asked about only through its first row. */
  predicate Modified(d: Daemon) {
    || (d.db.users != [] && d.usersChanged > d.idlSeqno)
    || d.communitiesChanged > d.idlSeqno
    || d.otherConfigChanged > d.idlSeqno
    || d.switchVersionChanged > d.idlSeqno
  }

  function Ran(d: Daemon): Daemon {
    if !Configured(d) then d
    else
      var d := d.(systemConfigured := true);
      if d.seqno == d.idlSeqno then d
      else d.(idlSeqno := d.seqno, conf := if Modified(d) then Some(Render(d.db)) else d.conf)
  }

  class SnmpThread {
    var db: Inputs
    var curCfg: int
    var seqno: nat
    var usersChanged: nat
    var communitiesChanged: nat
    var otherConfigChanged: nat
    var switchVersionChanged: nat
    var idlSeqno: nat
    var systemConfigured: bool
    var conf: Option<seq<Directive>>

    function State(): Daemon
      reads this
    {
      Daemon(db, curCfg, seqno, usersChanged, communitiesChanged, otherConfigChanged, switchVersionChanged,
             idlSeqno, systemConfigured, conf)
    }

    constructor (d: Daemon)
      ensures State() == d
    {
      db, curCfg, seqno, usersChanged, communitiesChanged :=
        d.db, d.curCfg, d.seqno, d.usersChanged, d.communitiesChanged;
      otherConfigChanged, switchVersionChanged := d.otherConfigChanged, d.switchVersionChanged;
      idlSeqno, systemConfigured, conf := d.idlSeqno, d.systemConfigured, d.conf;
    }

    method SystemIsConfigured() returns (configured: bool)
      modifies this`systemConfigured
      ensures configured == old(Configured(State()))
      ensures State() == old(State()).(systemConfigured := configured)
    {
      if systemConfigured {
        return true;
      }
      if curCfg > 0 {
        systemConfigured := true;
        return true;
      }
      return false;
    }

    method Reconfigure()
      modifies this`conf
      ensures State() == old(State()).(conf := if old(Modified(State())) then Some(Render(db)) else old(conf))
    {
      var modified := false;
      if db.users != [] {
        if usersChanged > idlSeqno {
          modified := true;
        }
      }
      if communitiesChanged > idlSeqno {
        modified := true;
      }
      if otherConfigChanged > idlSeqno {
        modified := true;
      }
      if switchVersionChanged > idlSeqno {
        modified := true;
      }
      if modified {
        var file := GenerateSnmpdConf(db);
        conf := Some(file);
      }
    }

    method SnmpRun()
      modifies this
      ensures State() == Ran(old(State()))
    {
      var configured := SystemIsConfigured();
      if !configured {
        return;
      }
      if seqno != idlSeqno {
        Reconfigure();
        idlSeqno := seqno;
      }
    }
  }

  // ----- when the file follows the database

  predicate FileFresh(d: Daemon) {
    d.conf == Some(Render(d.db))
  }

  predicate SeqnosInOrder(d: Daemon) {
    && d.idlSeqno <= d.seqno && d.usersChanged <= d.seqno && d.communitiesChanged <= d.seqno
    && d.otherConfigChanged <= d.seqno && d.switchVersionChanged <= d.seqno
  }

  /** The file is the rendering of `written`, or was not written yet; columns not reported since the last
      configured run still have the values written, except that the user table may have been emptied. */
  predicate Follows(d: Daemon, written: Option<Inputs>) {
    SeqnosInOrder(d) &&
    match written
    case None => d.conf == None
    case Some(basis) =>
      && d.conf == Some(Render(basis))
      && (d.usersChanged <= d.idlSeqno ==> d.db.users == basis.users || d.db.users == [])
      && (d.communitiesChanged <= d.idlSeqno ==> d.db.communities == basis.communities)
      && (d.otherConfigChanged <= d.idlSeqno ==> d.db.otherConfig == basis.otherConfig)
      && (d.switchVersionChanged <= d.idlSeqno ==> d.db.switchVersion == basis.switchVersion)
  }

  /** What the file was last written from, after a run on `d`. */
  function WrittenBy(d: Daemon, written: Option<Inputs>): Option<Inputs> {
    if Configured(d) && Modified(d) then Some(d.db) else written
  }

  lemma FollowsNext(d: Daemon, written: Option<Inputs>, c: Change)
    requires Follows(d, written) && Reports(d, c)
    ensures Follows(Receive(d, c), written)
    ensures Follows(Ran(Receive(d, c)), WrittenBy(Receive(d, c), written))
  {
  }

  lemma {:induction false} UsersPartLength(us: seq<UserRow>)
    ensures |UsersPart(us)| == 2 * |us|
  {
    if us != [] {
      UsersPartLength(us[..|us| - 1]);
    }
  }

  lemma SameOtherPartsRender(a: Inputs, b: Inputs)
    requires a.otherConfig == b.otherConfig && a.switchVersion == b.switchVersion && a.communities == b.communities
    requires a.users == b.users || a.users == []
    ensures Render(a) == Render(b) <==> a.users == b.users && EngineIdText(a.mac) == EngineIdText(b.mac)
  {
    UsersPartLength(a.users);
    UsersPartLength(b.users);
    var n := |Render(a)| - 3;
    assert Render(a)[n] == EngineID(EngineIdText(a.mac));
    assert Render(b)[|Render(b)| - 3] == EngineID(EngineIdText(b.mac));
  }

  /** What the file shows of the users and the MAC. */
  predicate ShowsSame(a: Inputs, b: Inputs) {
    a.users == b.users && WithoutColons(a.mac) == WithoutColons(b.mac)
  }

  /** With no change pending, the file is right exactly when no user and no MAC digit differs from what
      it was written from. */
  lemma SettledFile(d: Daemon, written: Option<Inputs>)
    requires Follows(d, written) && !Modified(d)
    ensures FileFresh(d) <==> written.Some? && ShowsSame(d.db, written.value)
  {
    if written.Some? {
      var basis := written.value;
      assert EngineIdText(d.db.mac)[12..] == WithoutColons(d.db.mac);
      assert EngineIdText(basis.mac)[12..] == WithoutColons(basis.mac);
      SameOtherPartsRender(d.db, basis);
    }
  }

  /** One configured run: the file is right after it exactly when the run saw a change, or the users and
      the MAC digits are those the file was last written from. */
  lemma RunKeepsFileFresh(d: Daemon, basis: Inputs)
    requires Follows(d, Some(basis)) && Configured(d)
    ensures FileFresh(Ran(d)) <==> Modified(d) || ShowsSame(d.db, basis)
  {
    if !Modified(d) {
      SettledFile(d, Some(basis));
    }
  }

  /** The main loop: each round receives one batch and runs. */
  function Rounds(d: Daemon, changes: seq<Change>): Daemon
    decreases |changes|
  {
    if changes == [] then d else Rounds(Ran(Receive(d, changes[0])), changes[1..])
  }

  predicate AllReported(d: Daemon, changes: seq<Change>)
    decreases |changes|
  {
    changes == [] || (Reports(d, changes[0]) && AllReported(Ran(Receive(d, changes[0])), changes[1..]))
  }

  /** What the file was last written from, after all rounds. */
  function LastWritten(d: Daemon, written: Option<Inputs>, changes: seq<Change>): Option<Inputs>
    decreases |changes|
  {
    if changes == [] then written
    else LastWritten(Ran(Receive(d, changes[0])), WrittenBy(Receive(d, changes[0]), written), changes[1..])
  }

  /** Over any run of reported changes from any start, configured at once, later or before: when it ends in
      a configured system, the file is the rendering of the database exactly when the daemon has written
      it and neither a user nor a MAC digit differs from what was last written. */
  lemma {:induction false} FileFreshOverRuns(d: Daemon, written: Option<Inputs>, changes: seq<Change>)
    requires Follows(d, written) && AllReported(d, changes)
    requires changes != [] && Configured(Rounds(d, changes))
    ensures var (e, last) := (Rounds(d, changes), LastWritten(d, written, changes));
      FileFresh(e) <==> last.Some? && ShowsSame(e.db, last.value)
    decreases |changes|
  {
    var received := Receive(d, changes[0]);
    FollowsNext(d, written, changes[0]);
    if changes[1..] == [] {
      assert Rounds(Ran(received), []) == Ran(received) && Configured(received);
      SettledFile(Ran(received), WrittenBy(received, written));
    } else {
      FileFreshOverRuns(Ran(received), WrittenBy(received, written), changes[1..]);
    }
  }

  lemma {:induction false} FollowsRounds(d: Daemon, written: Option<Inputs>, changes: seq<Change>)
    requires Follows(d, written) && AllReported(d, changes)
    ensures Follows(Rounds(d, changes), LastWritten(d, written, changes))
    decreases |changes|
  {
    if changes != [] {
      FollowsNext(d, written, changes[0]);
      FollowsRounds(Ran(Receive(d, changes[0])), WrittenBy(Receive(d, changes[0]), written), changes[1..]);
    }
  }

  /** The engine ID in the file. */
  predicate FileHasEngineId(d: Daemon, text: string) {
    d.conf.Some? && |d.conf.value| >= 3 && d.conf.value[|d.conf.value| - 3] == EngineID(text)
  }

  /** Over any run the agent and a sender whose first v3 trap met the MAC `first` use the same engine ID
      exactly when the MAC the file was last written from has the same digits as `first`, whatever the
      MAC is now. */
  lemma SameEngineId(d: Daemon, written: Option<Inputs>, changes: seq<Change>, first: string)
    requires Follows(d, written) && AllReported(d, changes)
    ensures FileHasEngineId(Rounds(d, changes), EngineIdText(first)) <==>
      var last := LastWritten(d, written, changes);
      last.Some? && WithoutColons(last.value.mac) == WithoutColons(first)
  {
    FollowsRounds(d, written, changes);
    var last := LastWritten(d, written, changes);
    if last.Some? {
      var file := Render(last.value);
      assert file[|file| - 3] == EngineID(EngineIdText(last.value.mac));
      assert EngineIdText(last.value.mac)[12..] == WithoutColons(last.value.mac);
      assert EngineIdText(first)[12..] == WithoutColons(first);
    }
  }

  /** Deleting the last user leaves a right file stale. */
  lemma LastUserGone(d: Daemon)
    requires FileFresh(d) && Configured(d) && SeqnosInOrder(d) && d.seqno == d.idlSeqno && d.db.users != []
    ensures var c := Change(d.db.(users := []), d.curCfg, true, false, false, false);
      Reports(d, c) && !FileFresh(Ran(Receive(d, c)))
  {
    var c := Change(d.db.(users := []), d.curCfg, true, false, false, false);
    FollowsNext(d, Some(d.db), c);
    RunKeepsFileFresh(Receive(d, c), d.db);
  }

  /** So does a change of the MAC alone. */
  lemma MacChangeUnseen(d: Daemon, mac: string)
    requires FileFresh(d) && Configured(d) && SeqnosInOrder(d) && d.seqno == d.idlSeqno
    requires WithoutColons(mac) != WithoutColons(d.db.mac)
    ensures var c := Change(d.db.(mac := mac), d.curCfg, false, false, false, false);
      Reports(d, c) && !FileFresh(Ran(Receive(d, c)))
  {
    var c := Change(d.db.(mac := mac), d.curCfg, false, false, false, false);
    FollowsNext(d, Some(d.db), c);
    RunKeepsFileFresh(Receive(d, c), d.db);
  }

  /** A change the daemon follows: it touches a column of the system row, or it is a change of the user
      table that leaves a user, or the file does not show it. */
  predicate Followed(d: Daemon, c: Change) {
    || c.communities || c.otherConfig || c.switchVersion
    || (c.users && c.db.users != [])
    || (c.db.users == d.db.users && EngineIdText(c.db.mac) == EngineIdText(d.db.mac))
  }

  predicate AllFollowed(d: Daemon, changes: seq<Change>)
    decreases |changes|
  {
    changes == [] ||
    (Reports(d, changes[0]) && Followed(d, changes[0]) && AllFollowed(Ran(Receive(d, changes[0])), changes[1..]))
  }

  predicate FreshOrPending(d: Daemon) {
    SeqnosInOrder(d) && (FileFresh(d) || Modified(d))
  }

  lemma FollowedRound(d: Daemon, c: Change)
    requires FreshOrPending(d) && Reports(d, c) && Followed(d, c)
    ensures FreshOrPending(Ran(Receive(d, c)))
    ensures Configured(Receive(d, c)) ==> FileFresh(Ran(Receive(d, c)))
  {
  }

  /** Along any run of followed changes the file is the rendering of the database after every
      configured round, however many rounds passed before the system was configured. */
  lemma {:induction false} FileFollowsDatabase(d: Daemon, changes: seq<Change>)
    requires FreshOrPending(d) && AllFollowed(d, changes)
    ensures FreshOrPending(Rounds(d, changes))
    ensures changes != [] && Configured(Rounds(d, changes)) ==> FileFresh(Rounds(d, changes))
    decreases |changes|
  {
    if changes != [] {
      var next := Ran(Receive(d, changes[0]));
      FollowedRound(d, changes[0]);
      FileFollowsDatabase(next, changes[1..]);
      if changes[1..] == [] && Configured(next) {
        assert Configured(Receive(d, changes[0]));
      }
    }
  }
}
