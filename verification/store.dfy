/** The rows the SNMP commands work on, and what each command does to them. */
module SnmpStore {
  import opened Words

  datatype Version = V1 | V2c | V3 {
    function Text(): string {
      match this case V1 => "v1" case V2c => "v2c" case V3 => "v3"
    }
  }

  datatype Kind = Trap | Inform {
    function Text(): string {
      match this case Trap => "trap" case Inform => "inform"
    }
  }

  datatype Auth = NoAuth | Md5 | Sha {
    function Text(): string {
      match this case NoAuth => "none" case Md5 => "md5" case Sha => "sha"
    }
  }

  datatype Priv = NoPriv | Aes | Des {
    function Text(): string {
      match this case NoPriv => "none" case Aes => "aes" case Des => "des"
    }
  }

  datatype TrapRow = TrapRow(address: string, port: nat, community: string, version: Version, kind: Kind)

  datatype UserRow = UserRow(name: string, auth: Auth, authPass: string, priv: Priv, privPass: string)

  /** The arguments after the user name in the three user commands. */
  datatype Credentials =
    | Nothing
    | AuthOnly(auth: Auth, authPass: string)
    | AuthAndPriv(auth: Auth, authPass: string, priv: Priv, privPass: string)

  /** The system row, the two tables in the order the database hands out their rows, and the
      counter that lives as long as the shell. */
  datatype Store = Store(
    otherConfig: map<string, string>,
    switchVersion: string,
    communities: seq<string>,
    traps: seq<TrapRow>,
    users: seq<UserRow>,
    trapCount: nat)

  const AGENT_PORT := "snmp_agent_port"
  const DESCRIPTION := "system_description"
  const LOCATION := "system_location"
  const CONTACT := "system_contact"
  const DEFAULT_COMMUNITY := "public"
  const DEFAULT_TRAP_PORT: nat := 162
  const MAX_COMMUNITIES := 10
  const MAX_TRAPS := 30

  /** The two address checks made outside this code: the A.B.C.D argument and is_valid_ip_address. */
  datatype Platform = Platform(isAddress: string -> bool, isValid: string -> bool)

  /** How the database answers one command: whether the transaction starts and commits,
      and where the iteration order shows an inserted row. */
  datatype Outcome = NoTransaction | Failed | Committed
  datatype Choice = Choice(outcome: Outcome, slot: nat)

  datatype Command =
    | SetHost(row: TrapRow)
    | UnsetHost(row: TrapRow)
    | SetConfig(key: string, value: string)
    | UnsetConfig(key: string)
    | SetCommunity(name: string)
    | UnsetCommunity(name: string)
    | SetUser(name: string, credentials: Credentials)
    | UnsetUser(name: string)

  /** What the shell prints back. */
  datatype Reply =
    | Silent
    | UnknownCommand
    | TooManyTraps
    | InvalidAddress
    | NoSuchUser
    | TrapExists
    | TooManyCommunities
    | CommunityExists
    | CommunityNotConfigured
    | UserExists
    | TrapStillPresent
    | UserNotConfigured

  /** strncmp(a, b, n) == 0 is Clip(a, n) == Clip(b, n). */
  function Clip(s: string, n: nat): string {
    if |s| <= n then s else s[..n]
  }

  function CommunityKey(name: string): string { Clip(name, 33) }

  function UserKey(name: string): string { Clip(name, 33) }

  function TrapKey(t: TrapRow): (string, nat, Version, Kind) {
    (Clip(t.address, 46), t.port, t.version, t.kind)
  }

  predicate HasUser(users: seq<UserRow>, name: string) {
    exists i :: 0 <= i < |users| && UserKey(users[i].name) == UserKey(name)
  }

  predicate HasTrap(traps: seq<TrapRow>, t: TrapRow) {
    exists i :: 0 <= i < |traps| && TrapKey(traps[i]) == TrapKey(t)
  }

  predicate HasCommunity(communities: seq<string>, name: string) {
    exists i :: 0 <= i < |communities| && CommunityKey(communities[i]) == CommunityKey(name)
  }

  predicate TrapNames(traps: seq<TrapRow>, user: string) {
    exists i :: 0 <= i < |traps| && UserKey(traps[i].community) == UserKey(user)
  }

  /** `x` put among the rows at the position the database chose. */
  function InsertAt<T>(rows: seq<T>, slot: nat, x: T): seq<T> {
    var p := if slot <= |rows| then slot else |rows|;
    rows[..p] + [x] + rows[p..]
  }

  /** The delete loop of the trap table compares whole strings. */
  predicate SameReceiver(t: TrapRow, r: TrapRow) {
    t.address == r.address && t.port == r.port && t.version == r.version && t.kind == r.kind
  }

  function WithoutTrap(traps: seq<TrapRow>, r: TrapRow): seq<TrapRow> {
    if traps == [] then [] else
    var n := |traps| - 1;
    WithoutTrap(traps[..n], r) + if SameReceiver(traps[n], r) then [] else [traps[n]]
  }

  function WithoutUser(users: seq<UserRow>, name: string): seq<UserRow> {
    if users == [] then [] else
    var n := |users| - 1;
    WithoutUser(users[..n], name) + if UserKey(users[n].name) == UserKey(name) then [] else [users[n]]
  }

  function WithoutCommunity(communities: seq<string>, name: string): seq<string> {
    if communities == [] then [] else
    var n := |communities| - 1;
    WithoutCommunity(communities[..n], name) + if communities[n] == name then [] else [communities[n]]
  }

  function NewUser(name: string, credentials: Credentials): UserRow {
    match credentials
    case Nothing => UserRow(name, NoAuth, "", NoPriv, "")
    case AuthOnly(auth, authPass) => UserRow(name, auth, authPass, NoPriv, "")
    case AuthAndPriv(auth, authPass, priv, privPass) => UserRow(name, auth, authPass, priv, privPass)
  }

  function Commit(st: Store, changed: Store, ch: Choice): Store {
    if ch.outcome == Committed then changed else st
  }

  /** One command, with its guards in the order the shell checks them. */
  function Perform(pf: Platform, st: Store, cmd: Command, ch: Choice): (Store, Reply) {
    match cmd
    case SetHost(row) =>
      if st.trapCount > MAX_TRAPS then (st, TooManyTraps)
      else if !pf.isValid(row.address) then (st, InvalidAddress)
      else if row.version == V3 && !HasUser(st.users, row.community) then (st, NoSuchUser)
      else if HasTrap(st.traps, row) then (st, TrapExists)
      else
        var traps := InsertAt(st.traps, ch.slot, row);
        (Commit(st, st.(traps := traps, trapCount := st.trapCount + 1), ch), Silent)
    case UnsetHost(row) =>
      (Commit(st, st.(traps := WithoutTrap(st.traps, row)), ch), Silent)
    case SetConfig(key, value) =>
      (Commit(st, st.(otherConfig := st.otherConfig[key := value]), ch), Silent)
    case UnsetConfig(key) =>
      var config := if key == DESCRIPTION then st.otherConfig[key := st.switchVersion] else st.otherConfig - {key};
      (Commit(st, st.(otherConfig := config), ch), Silent)
    case SetCommunity(name) =>
      if ch.outcome == NoTransaction then (st, Silent)
      else if |st.communities| == MAX_COMMUNITIES then (st, TooManyCommunities)
      else if HasCommunity(st.communities, name) then (st, CommunityExists)
      else (Commit(st, st.(communities := st.communities + [name]), ch), Silent)
    case UnsetCommunity(name) =>
      if name !in st.communities then (st, CommunityNotConfigured)
      else (Commit(st, st.(communities := WithoutCommunity(st.communities, name)), ch), Silent)
    case SetUser(name, credentials) =>
      if HasUser(st.users, name) then (st, UserExists)
      else
        var users := InsertAt(st.users, ch.slot, NewUser(name, credentials));
        (Commit(st, st.(users := users), ch), Silent)
    case UnsetUser(name) =>
      if TrapNames(st.traps, name) then (st, TrapStillPresent)
      else if ch.outcome == NoTransaction then (st, Silent)
      else
        (Commit(st, st.(users := WithoutUser(st.users, name)), ch),
         if HasUser(st.users, name) then Silent else UserNotConfigured)
  }
}
