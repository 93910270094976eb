/** The DEFUN patterns: which lines are commands, and which arguments they pass on. */
module CommandGrammar {
  import opened Words
  import opened SnmpStore

  /** An argument matching `<1-65535>`. */
  predicate IsPort(w: string) {
    w != [] && AllDigits(w) && 1 <= Number(w) <= 65535
  }

  /** The optional arguments `{ community WORD | port <1-65535> }`: any order, each at most once. */
  function Keywords(ws: seq<string>, community: Option<string>, port: Option<nat>)
    : Option<(Option<string>, Option<nat>)>
  {
    if |ws| == 0 then Some((community, port))
    else if |ws| >= 2 && ws[0] == "community" && community.None? then Keywords(ws[2..], Some(ws[1]), port)
    else if |ws| >= 2 && ws[0] == "port" && port.None? && IsPort(ws[1]) then
      Keywords(ws[2..], community, Some(Number(ws[1])))
    else None
  }

  /** The optional argument `{ port <1-65535> }`. */
  function PortKeyword(ws: seq<string>): Option<nat> {
    if |ws| == 0 then Some(DEFAULT_TRAP_PORT)
    else if |ws| == 2 && ws[0] == "port" && IsPort(ws[1]) then Some(Number(ws[1]))
    else None
  }

  /** The versions a community notification of each kind may name. */
  function CommunityVersion(kind: Kind, w: string): Option<Version> {
    if w == "v2c" then Some(V2c)
    else if w == "v1" && kind == Trap then Some(V1)
    else None
  }

  /** What follows `snmp-server host`. */
  function HostArguments(pf: Platform, ws: seq<string>): Option<TrapRow> {
    if |ws| < 4 || !pf.isAddress(ws[0]) || ws[1] !in {"trap", "inform"} || ws[2] != "version" then None
    else
      var kind := if ws[1] == "trap" then Trap else Inform;
      if ws[3] == "v3" then
        if |ws| < 6 || ws[4] != "user" then None
        else match PortKeyword(ws[6..])
          case None => None
          case Some(port) => Some(TrapRow(ws[0], port, ws[5], V3, kind))
      else match CommunityVersion(kind, ws[3])
        case None => None
        case Some(version) =>
          match Keywords(ws[4..], None, None)
          case None => None
          case Some((community, port)) =>
            Some(TrapRow(ws[0],
              if port.Some? then port.value else DEFAULT_TRAP_PORT,
              if community.Some? then community.value else DEFAULT_COMMUNITY,
              version, kind))
  }

  function AuthWord(w: string): Option<Auth> {
    if w == "md5" then Some(Md5) else if w == "sha" then Some(Sha) else None
  }

  function PrivWord(w: string): Option<Priv> {
    if w == "aes" then Some(Aes) else if w == "des" then Some(Des) else None
  }

  /** What follows `snmpv3 user WORD`. */
  function UserArguments(ws: seq<string>): Option<Credentials> {
    if |ws| == 0 then Some(Nothing)
    else if |ws| !in {4, 8} || ws[0] != "auth" || AuthWord(ws[1]).None? || ws[2] != "auth-pass" then None
    else if |ws| == 4 then Some(AuthOnly(AuthWord(ws[1]).value, ws[3]))
    else if ws[4] != "priv" || PrivWord(ws[5]).None? || ws[6] != "priv-pass" then None
    else Some(AuthAndPriv(AuthWord(ws[1]).value, ws[3], PrivWord(ws[5]).value, ws[7]))
  }

  /** The settings that take the rest of the line. */
  function LineKey(w: string): Option<string> {
    if w == "system-description" then Some(DESCRIPTION)
    else if w == "system-location" then Some(LOCATION)
    else if w == "system-contact" then Some(CONTACT)
    else None
  }

  function ParseSet(pf: Platform, ws: seq<string>): Option<Command> {
    if |ws| >= 2 && ws[0] == "snmp-server" then
      if ws[1] == "host" then
        match HostArguments(pf, ws[2..])
        case None => None
        case Some(row) => Some(SetHost(row))
      else if ws[1] == "agent-port" && |ws| == 3 && IsPort(ws[2]) then Some(SetConfig(AGENT_PORT, ws[2]))
      else if ws[1] == "community" && |ws| == 3 then Some(SetCommunity(ws[2]))
      else if LineKey(ws[1]).Some? && |ws| >= 3 then Some(SetConfig(LineKey(ws[1]).value, Join(ws[2..])))
      else None
    else if |ws| >= 3 && ws[0] == "snmpv3" && ws[1] == "user" then
      match UserArguments(ws[3..])
      case None => None
      case Some(credentials) => Some(SetUser(ws[2], credentials))
    else None
  }

  function ParseUnset(pf: Platform, ws: seq<string>): Option<Command> {
    if |ws| >= 2 && ws[0] == "snmp-server" then
      if ws[1] == "host" then
        match HostArguments(pf, ws[2..])
        case None => None
        case Some(row) => Some(UnsetHost(row))
      else if ws[1] == "agent-port" && (|ws| == 2 || (|ws| == 3 && IsPort(ws[2]))) then Some(UnsetConfig(AGENT_PORT))
      else if ws[1] == "community" && |ws| == 3 then Some(UnsetCommunity(ws[2]))
      else if LineKey(ws[1]).Some? then Some(UnsetConfig(LineKey(ws[1]).value))
      else None
    else if |ws| >= 3 && ws[0] == "snmpv3" && ws[1] == "user" then
      match UserArguments(ws[3..])
      case None => None
      case Some(_) => Some(UnsetUser(ws[2]))
    else None
  }

  function ParseWords(pf: Platform, ws: seq<string>): Option<Command> {
    if |ws| >= 1 && ws[0] == "no" then ParseUnset(pf, ws[1..]) else ParseSet(pf, ws)
  }

  function Parse(pf: Platform, line: string): Option<Command> {
    ParseWords(pf, Split(line))
  }

  /** One line typed at the shell. */
  function Step(pf: Platform, st: Store, line: string, ch: Choice): (Store, Reply) {
    match Parse(pf, line)
    case None => (st, UnknownCommand)
    case Some(cmd) => Perform(pf, st, cmd, ch)
  }

  /** A script of lines, with the database's answer to each. */
  function Run(pf: Platform, st: Store, lines: seq<string>, choices: seq<Choice>): Store
    requires |lines| == |choices|
    decreases |lines|
  {
    if lines == [] then st
    else Run(pf, Step(pf, st, lines[0], choices[0]).0, lines[1..], choices[1..])
  }
}
