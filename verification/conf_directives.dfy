/** The directives of snmpd.conf, one by one. */
module ConfDirectives {
  import opened Words
  import opened SnmpStore
  import opened EngineId
  import opened SnmpdConf

  function ValueOr(config: map<string, string>, key: string, default: string): string {
    if key in config then config[key] else default
  }

  /** The six directives of the system, with the defaults of the file. */
  lemma SystemDirectives(inputs: Inputs)
    ensures SystemPart(inputs) == [
      AgentAddress(ValueOr(inputs.otherConfig, "snmp_agent_port", "161")),
      SysDescr(ValueOr(inputs.otherConfig, "system_description", inputs.switchVersion)),
      SysContact(ValueOr(inputs.otherConfig, "system_contact", "\"\"")),
      SysLocation(ValueOr(inputs.otherConfig, "system_location", "\"\"")),
      SysObjectID("1.3.6.1.4.1.47267"),
      SysServices(74)]
  {
  }

  /** One directive for each community, in order; without communities the one for public. */
  lemma CommunityDirectives(cs: seq<string>)
    ensures cs == [] ==> CommunityPart(cs) == [RoCommunity("public")]
    ensures cs != [] ==>
      |CommunityPart(cs)| == |cs| && forall i :: 0 <= i < |cs| ==> CommunityPart(cs)[i] == RoCommunity(cs[i])
  {
  }

  /** The two directives of a user: his protocols with their pass phrases, and the level they give. */
  lemma UserDirectives(u: UserRow)
    requires u.priv != NoPriv ==> u.auth != NoAuth
    ensures UserPart(u) == [
      CreateUser(u.name,
        match u.auth case NoAuth => None case Md5 => Some(("MD5", u.authPass)) case Sha => Some(("SHA", u.authPass)),
        match u.priv case NoPriv => None case Aes => Some(("AES", u.privPass)) case Des => Some(("DES", u.privPass))),
      RoUser(u.name, if u.auth == NoAuth then "" else if u.priv == NoPriv then "auth" else "priv")]
  {
  }

  lemma LastUser(us: seq<UserRow>)
    requires us != []
    ensures UsersPart(us) == UsersPart(us[..|us| - 1]) + UserPart(us[|us| - 1])
    ensures |UserPart(us[|us| - 1])| == 2
  {
  }

  lemma {:induction false} FirstUsers(us: seq<UserRow>, i: nat)
    requires i <= |us|
    ensures UsersPart(us[..i]) <= UsersPart(us)
    decreases |us|
  {
    if i == |us| {
      assert us[..i] == us;
    } else {
      LastUser(us);
      assert us[..|us| - 1][..i] == us[..i];
      FirstUsers(us[..|us| - 1], i);
    }
  }

  lemma SliceOfPrefix<T>(all: seq<T>, before: seq<T>, own: seq<T>, n: nat)
    requires before + own <= all && |before| == n && |own| == 2
    ensures n + 2 <= |all| && all[n..n + 2] == own
  {
    assert all[..n + 2] == before + own;
  }

  lemma UserBlock(us: seq<UserRow>, i: nat)
    requires i < |us|
    ensures UsersPart(us[..i]) + UserPart(us[i]) <= UsersPart(us) && |UserPart(us[i])| == 2
  {
    var upTo := us[..i + 1];
    assert upTo[..i] == us[..i] && upTo[i] == us[i];
    LastUser(upTo);
    FirstUsers(us, i + 1);
  }

  lemma UsersPartAt(us: seq<UserRow>, i: nat)
    requires i < |us|
    ensures |UsersPart(us)| == 2 * |us| && UsersPart(us)[2 * i..2 * i + 2] == UserPart(us[i])
  {
    UsersPartLength(us);
    UsersPartLength(us[..i]);
    UserBlock(us, i);
    SliceOfPrefix(UsersPart(us), UsersPart(us[..i]), UserPart(us[i]), 2 * i);
  }

  /** Where the directives of the users start. */
  function UsersStart(inputs: Inputs): nat {
    6 + if inputs.communities == [] then 1 else |inputs.communities|
  }

  lemma FourParts<T>(x: seq<T>, y: seq<T>, z: seq<T>, last: seq<T>)
    ensures var all := x + y + z + last;
      && all[..|x|] == x && all[|x|..|x| + |y|] == y && all[|x| + |y|..|x| + |y| + |z|] == z
      && all[|x| + |y| + |z|..] == last
  {
  }

  /** The whole file: system, communities, two directives for each user, the engine ID and two constant
      directives, nothing else. */
  lemma FileDirectives(inputs: Inputs)
    ensures var (file, b) := (Render(inputs), UsersStart(inputs));
      var c := b + 2 * |inputs.users|;
      && |file| == c + 3
      && file[..6] == SystemPart(inputs)
      && file[6..b] == CommunityPart(inputs.communities)
      && file[b..c] == UsersPart(inputs.users)
      && file[c..] == [EngineID("0x0000b8a303" + WithoutColons(inputs.mac)), Master("agentx"),
                       AgentXSocket("/var/agentx/master")]
  {
    UsersPartLength(inputs.users);
    FourParts(SystemPart(inputs), CommunityPart(inputs.communities), UsersPart(inputs.users),
              [EngineID(EngineIdText(inputs.mac)), Master("agentx"), AgentXSocket("/var/agentx/master")]);
  }

  /** The two directives of each user, in the order of the rows. */
  lemma UserIsInFile(inputs: Inputs, i: nat)
    requires i < |inputs.users|
    ensures var (file, at) := (Render(inputs), UsersStart(inputs) + 2 * i);
      at + 2 <= |file| && file[at..at + 2] == UserPart(inputs.users[i])
  {
    var b := UsersStart(inputs);
    FileDirectives(inputs);
    UsersPartAt(inputs.users, i);
    SliceOfSlice(Render(inputs), b, b + 2 * |inputs.users|, 2 * i);
  }

  lemma SliceOfSlice<T>(all: seq<T>, b: nat, c: nat, i: nat)
    requires b + i + 2 <= c <= |all|
    ensures all[b..c][i..i + 2] == all[b + i..b + i + 2]
  {
    assert all[b..c][i] == all[b + i] && all[b..c][i + 1] == all[b + i + 1];
  }

  /** In particular every community is in the file. */
  lemma CommunityIsInFile(inputs: Inputs, c: string)
    ensures c in inputs.communities ==> RoCommunity(c) in Render(inputs)
    ensures inputs.communities == [] ==> RoCommunity("public") in Render(inputs)
  {
    FileDirectives(inputs);
    CommunityDirectives(inputs.communities);
    var part := CommunityPart(inputs.communities);
    if c in inputs.communities {
      var i :| 0 <= i < |inputs.communities| && inputs.communities[i] == c;
      assert Render(inputs)[6..6 + |inputs.communities|][i] == part[i];
    }
    if inputs.communities == [] {
      assert Render(inputs)[6..7][0] == part[0];
    }
  }

  // ----- when the daemon writes

  /** The daemon counts as configured from the first round on in which cur_cfg is positive. */
  lemma {:induction false} ConfiguredExactly(d: Daemon, changes: seq<Change>)
    ensures Rounds(d, changes).systemConfigured <==>
      d.systemConfigured || exists i :: 0 <= i < |changes| && changes[i].curCfg > 0
    decreases |changes|
  {
    if changes != [] {
      ConfiguredExactly(Ran(Receive(d, changes[0])), changes[1..]);
      assert forall i :: 0 < i < |changes| ==> changes[i] == changes[1..][i - 1];
      if i :| 0 <= i < |changes[1..]| && changes[1..][i].curCfg > 0 {
        assert changes[i + 1].curCfg > 0;
      }
    }
  }
}
