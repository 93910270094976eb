/** The shell commands as they run: searches over the tables, one transaction each. */
module SnmpCli {
  import opened Words
  import opened SnmpStore
  import opened CommandGrammar

  class Shell {
    const pf: Platform
    var otherConfig: map<string, string>
    const switchVersion: string
    var communities: seq<string>
    var traps: seq<TrapRow>
    var users: seq<UserRow>
    var trapCount: nat

    function State(): Store
      reads this
    {
      Store(otherConfig, switchVersion, communities, traps, users, trapCount)
    }

    constructor (pf: Platform, st: Store)
      ensures State() == st && this.pf == pf
    {
      this.pf := pf;
      otherConfig, switchVersion := st.otherConfig, st.switchVersion;
      communities, traps, users, trapCount := st.communities, st.traps, st.users, st.trapCount;
    }

    method V3UserExists(user: string) returns (userFound: bool)
      ensures userFound == HasUser(users, user)
    {
      userFound := false;
      for i := 0 to |users|
        invariant !userFound
        invariant !HasUser(users[..i], user)
      {
        if UserKey(users[i].name) == UserKey(user) {
          userFound := true;
          break;
        }
      }
      assert users[..|users|] == users;
    }

    method ServerHostConfig(ip: string, community: string, port: nat, version: Version, kind: Kind, ch: Choice)
      returns (reply: Reply)
      modifies this`traps, this`trapCount
      ensures (State(), reply) == Perform(pf, old(State()), SetHost(TrapRow(ip, port, community, version, kind)), ch)
    {
      if trapCount > MAX_TRAPS {
        return TooManyTraps;
      }
      if !pf.isValid(ip) {
        return InvalidAddress;
      }
      if version == V3 {
        var userFound := V3UserExists(community);
        if !userFound {
          return NoSuchUser;
        }
      }
      var row := TrapRow(ip, port, community, version, kind);
      var trapFound := false;
      for i := 0 to |traps|
        invariant !trapFound
        invariant !HasTrap(traps[..i], row)
      {
        var host := traps[i];
        if Clip(host.address, 46) == Clip(ip, 46) && host.port == port && host.version == version && host.kind == kind {
          trapFound := true;
          assert TrapKey(traps[i]) == TrapKey(row);
          break;
        }
      }
      if trapFound {
        return TrapExists;
      }
      assert traps[..|traps|] == traps;
      if ch.outcome == Committed {
        traps := InsertAt(traps, ch.slot, row);
        trapCount := trapCount + 1;
      }
      reply := Silent;
    }

    method ServerHostUnconfig(ip: string, community: string, port: nat, version: Version, kind: Kind, ch: Choice)
      modifies this`traps
      ensures (State(), Silent) == Perform(pf, old(State()), UnsetHost(TrapRow(ip, port, community, version, kind)), ch)
    {
      if ch.outcome == NoTransaction {
        return;
      }
      ghost var row := TrapRow(ip, port, community, version, kind);
      var left: seq<TrapRow> := [];
      for i := 0 to |traps|
        invariant left == WithoutTrap(traps[..i], row)
      {
        var t := traps[i];
        assert traps[..i + 1][..i] == traps[..i];
        if !(ip == t.address && port == t.port && version == t.version && kind == t.kind) {
          left := left + [t];
        }
      }
      assert traps[..|traps|] == traps;
      if ch.outcome == Committed {
        traps := left;
      }
    }

    /** The agent port, the location and the contact. */
    method ConfigureSetting(key: string, value: Option<string>, ch: Choice)
      requires key != DESCRIPTION
      modifies this`otherConfig
      ensures State() ==
        Perform(pf, old(State()), if value.Some? then SetConfig(key, value.value) else UnsetConfig(key), ch).0
    {
      if ch.outcome == NoTransaction {
        return;
      }
      var smap := otherConfig;
      if value.Some? {
        smap := smap[key := value.value];
      } else {
        smap := smap - {key};
      }
      if ch.outcome == Committed {
        otherConfig := smap;
      }
    }

    method ConfigureDescription(value: Option<string>, ch: Choice)
      modifies this`otherConfig
      ensures State() ==
        Perform(pf, old(State()),
                if value.Some? then SetConfig(DESCRIPTION, value.value) else UnsetConfig(DESCRIPTION), ch).0
    {
      if ch.outcome == NoTransaction {
        return;
      }
      var smap := otherConfig;
      if value.Some? {
        smap := smap[DESCRIPTION := value.value];
      } else {
        smap := smap[DESCRIPTION := switchVersion];
      }
      if ch.outcome == Committed {
        otherConfig := smap;
      }
    }

    method ConfigureCommunity(name: string, ch: Choice) returns (reply: Reply)
      modifies this`communities
      ensures (State(), reply) == Perform(pf, old(State()), SetCommunity(name), ch)
    {
      if ch.outcome == NoTransaction {
        return Silent;
      }
      if |communities| == MAX_COMMUNITIES {
        return TooManyCommunities;
      }
      var names := new string[|communities| + 1];
      var i := 0;
      while i < |communities|
        invariant 0 <= i <= |communities|
        invariant names[..i] == communities[..i]
        invariant !HasCommunity(communities[..i], name)
        modifies names
      {
        if CommunityKey(communities[i]) == CommunityKey(name) {
          return CommunityExists;
        }
        names[i] := communities[i];
        i := i + 1;
      }
      assert communities[..i] == communities;
      names[i] := name;
      assert names[..] == communities + [name];
      if ch.outcome == Committed {
        communities := names[..];
      }
      reply := Silent;
    }

    /** The rows handed back to the database are the first n - 1 slots of the array, so the loop must
        have met the name at most once; two equal names would leave a slot unset. */
    method RemoveCommunity(name: string, ch: Choice) returns (reply: Reply)
      requires forall i, j :: 0 <= i < j < |communities| ==> communities[i] != communities[j]
      modifies this`communities
      ensures (State(), reply) == Perform(pf, old(State()), UnsetCommunity(name), ch)
    {
      var names := new string[|communities|];
      var configured := false;
      var last := -1;
      for i := 0 to |communities|
        invariant last + 1 == i - (if configured then 1 else 0)
        invariant configured == (name in communities[..i])
        invariant names[..last + 1] == WithoutCommunity(communities[..i], name)
        modifies names
      {
        assert communities[..i + 1] == communities[..i] + [communities[i]];
        assert communities[..i + 1][..i] == communities[..i];
        if communities[i] == name {
          assert name !in communities[..i];
          configured := true;
          continue;
        }
        last := last + 1;
        names[last] := communities[i];
      }
      assert communities[..|communities|] == communities;
      if !configured {
        return CommunityNotConfigured;
      }
      if ch.outcome == Committed {
        communities := names[..|communities| - 1];
      }
      reply := Silent;
    }

    method ConfigureV3User(name: string, credentials: Credentials, ch: Choice) returns (reply: Reply)
      modifies this`users
      ensures (State(), reply) == Perform(pf, old(State()), SetUser(name, credentials), ch)
    {
      for i := 0 to |users|
        invariant !HasUser(users[..i], name)
      {
        if UserKey(name) == UserKey(users[i].name) {
          return UserExists;
        }
      }
      assert users[..|users|] == users;
      var row := UserRow(name, NoAuth, "", NoPriv, "");
      match credentials {
        case Nothing =>
        case AuthOnly(auth, authPass) =>
          row := row.(auth := auth, authPass := authPass);
        case AuthAndPriv(auth, authPass, priv, privPass) =>
          row := row.(auth := auth, authPass := authPass, priv := priv, privPass := privPass);
      }
      if ch.outcome == Committed {
        users := InsertAt(users, ch.slot, row);
      }
      reply := Silent;
    }

    method UnconfigureV3User(name: string, ch: Choice) returns (reply: Reply)
      modifies this`users
      ensures (State(), reply) == Perform(pf, old(State()), UnsetUser(name), ch)
    {
      for i := 0 to |traps|
        invariant !TrapNames(traps[..i], name)
      {
        if UserKey(name) == UserKey(traps[i].community) {
          return TrapStillPresent;
        }
      }
      assert traps[..|traps|] == traps;
      if ch.outcome == NoTransaction {
        return Silent;
      }
      var left: seq<UserRow> := [];
      var userFound := false;
      for i := 0 to |users|
        invariant left == WithoutUser(users[..i], name)
        invariant userFound == HasUser(users[..i], name)
      {
        assert users[..i + 1][..i] == users[..i];
        if UserKey(name) == UserKey(users[i].name) {
          userFound := true;
          assert users[..i + 1][i] == users[i];
        } else {
          left := left + [users[i]];
        }
      }
      assert users[..|users|] == users;
      reply := if userFound then Silent else UserNotConfigured;
      if ch.outcome == Committed {
        users := left;
      }
    }

    /** One line typed at the shell, dispatched to the command whose pattern it matches. */
    method Execute(line: string, ch: Choice) returns (reply: Reply)
      requires forall i, j :: 0 <= i < j < |communities| ==> communities[i] != communities[j]
      modifies this
      ensures (State(), reply) == Step(pf, old(State()), line, ch)
    {
      var parsed := Parse(pf, line);
      if parsed.None? {
        return UnknownCommand;
      }
      reply := Silent;
      match parsed.value {
        case SetHost(r) => reply := ServerHostConfig(r.address, r.community, r.port, r.version, r.kind, ch);
        case UnsetHost(r) => ServerHostUnconfig(r.address, r.community, r.port, r.version, r.kind, ch);
        case SetConfig(key, value) =>
          if key == DESCRIPTION {
            ConfigureDescription(Some(value), ch);
          } else {
            ConfigureSetting(key, Some(value), ch);
          }
        case UnsetConfig(key) =>
          if key == DESCRIPTION {
            ConfigureDescription(None, ch);
          } else {
            ConfigureSetting(key, None, ch);
          }
        case SetCommunity(name) => reply := ConfigureCommunity(name, ch);
        case UnsetCommunity(name) => reply := RemoveCommunity(name, ch);
        case SetUser(name, credentials) => reply := ConfigureV3User(name, credentials, ch);
        case UnsetUser(name) => reply := UnconfigureV3User(name, ch);
      }
    }
  }
}
