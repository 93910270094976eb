/** The v3 session of the trap sender, and the agreement of everything that reads the user rows. */
module TrapSession {
  import opened Words
  import opened SnmpStore
  import opened CommandGrammar
  import opened StoreInvariants
  import opened RunningConfig
  import opened Replay
  import opened SnmpdConf

  datatype SecurityLevel = NoAuthNoPriv | AuthNoPriv | AuthPriv

  /** The security fields of the session, `level` unset before the first call. */
  datatype Security = Security(level: Option<SecurityLevel>, auth: Auth, priv: Priv)

  class Session {
    var level: Option<SecurityLevel>
    var authProto: Auth
    var privProto: Priv

    function State(): Security
      reads this
    {
      Security(level, authProto, privProto)
    }

    constructor ()
      ensures State() == Security(None, NoAuth, NoPriv)
    {
      level, authProto, privProto := None, NoAuth, NoPriv;
    }

    method AddAuthPrivInfo(user: UserRow) returns (status: int)
      modifies this
      ensures status == 0 <==> SessionFor(user).Some?
      ensures status == 0 ==>
        State() == SessionFor(user).value.(
          auth := if user.auth == NoAuth then old(authProto) else user.auth,
          priv := if user.priv == NoPriv then old(privProto) else user.priv)
    {
      var authFlag, privFlag := 0, 0;
      if user.auth != NoAuth {
        authFlag := 1;
      }
      if user.priv != NoPriv {
        privFlag := 1;
      }
      if authFlag == 0 && privFlag == 0 {
        level := Some(NoAuthNoPriv);
      } else if authFlag == 1 && privFlag == 0 {
        level := Some(AuthNoPriv);
      } else if authFlag == 1 && privFlag == 1 {
        level := Some(AuthPriv);
      } else {
        return -1;
      }
      if authFlag == 1 {
        if user.auth == Md5 {
          authProto := Md5;
        } else if user.auth == Sha {
          authProto := Sha;
        }
      }
      if privFlag == 1 {
        if user.priv == Des {
          privProto := Des;
        } else if user.priv == Aes {
          privProto := Aes;
        }
      }
      status := 0;
    }
  }

  /** The level and protocols a new session gets for a user; none for privacy without authentication. */
  function SessionFor(u: UserRow): Option<Security> {
    if u.auth == NoAuth && u.priv != NoPriv then None
    else
      var level := if u.auth == NoAuth then NoAuthNoPriv else if u.priv == NoPriv then AuthNoPriv else AuthPriv;
      Some(Security(Some(level), u.auth, u.priv))
  }

  /** The sender compares whole names. */
  method FindSnmpv3User(users: seq<UserRow>, name: string) returns (row: Option<UserRow>)
    ensures row.Some? ==> row.value in users && row.value.name == name
    ensures row.Some? <==> exists u :: u in users && u.name == name
  {
    for i := 0 to |users|
      invariant forall j :: 0 <= j < i ==> users[j].name != name
    {
      if users[i].name == name {
        return Some(users[i]);
      }
    }
    return None;
  }

  predicate SenderFinds(users: seq<UserRow>, name: string) {
    exists u :: u in users && u.name == name
  }

  /** In every store, whatever shells have written it, the sender finds the user of a v3 receiver exactly
      when no user only looks like it to the shell; a name of at most 32 characters is always found. */
  lemma SenderFindsUser(pf: Platform, st: Store, t: TrapRow)
    requires Stored(pf, st) && t in st.traps && t.version == V3
    ensures SenderFinds(st.users, t.community) <==>
      forall u :: u in st.users && UserKey(u.name) == UserKey(t.community) ==> u.name == t.community
    ensures |t.community| <= 32 ==> SenderFinds(st.users, t.community)
  {
    var i :| 0 <= i < |st.traps| && st.traps[i] == t;
    HasUserOf(st.users, t.community);
    if |t.community| <= 32 {
      OnlyItsOwnKey(t.community);
    }
  }

  lemma OnlyItsOwnKey(v: string)
    requires |v| <= 32
    ensures forall u: string :: UserKey(u) == UserKey(v) ==> u == v
  {
    forall u: string | UserKey(u) == UserKey(v) ensures u == v {
      assert |UserKey(u)| <= 32;
    }
  }

  /** The shell tells a name from every other one exactly when it has at most 32 characters. */
  lemma ShellTellsName(v: string)
    requires IsWord(v)
    ensures |v| <= 32 <==> forall u :: IsWord(u) && UserKey(u) == UserKey(v) ==> u == v
  {
    if |v| <= 32 {
      OnlyItsOwnKey(v);
    } else {
      LongerNameLooksTheSame(v);
    }
  }

  lemma LongerNameLooksTheSame(v: string)
    requires IsWord(v) && |v| > 32
    ensures IsWord(v + "x") && UserKey(v + "x") == UserKey(v) && v + "x" != v
  {
    assert Clip(v + "x", 33) == Clip(v, 33);
    assert |v + "x"| != |v|;
  }

  /** Over all runs: a receiver that names `v` is found whatever the script and the database did, exactly
      when `v` has at most 32 characters. */
  lemma AlwaysFound(pf: Platform, address: string, v: string)
    requires IsWord(v) && IsWord(address) && pf.isAddress(address) && pf.isValid(address)
    ensures |v| <= 32 <==>
      forall st, t :: ReachableByShells(pf, st) && t in st.traps && t.version == V3 && t.community == v ==>
        SenderFinds(st.users, v)
  {
    if |v| <= 32 {
      forall st, t | ReachableByShells(pf, st) && t in st.traps && t.version == V3 && t.community == v
        ensures SenderFinds(st.users, v)
      {
        ReachableByShellsIsStored(pf, st);
        SenderFindsUser(pf, st, t);
      }
    } else {
      LongerNameLooksTheSame(v);
      var u, ch, empty := v + "x", Choice(Committed, 0), Store(map[], "", [], [], [], 0);
      LongNamesMissUser(pf, empty, u, v, address, ch, ch);
      var row := TrapRow(address, DEFAULT_TRAP_PORT, v, V3, Trap);
      var lines := [Join(["snmpv3", "user", u]), Join(HostFields(row, false, false, true))];
      assert Reachable(pf, Run(pf, empty, lines, [ch, ch]));
      OneShell(pf, Run(pf, empty, lines, [ch, ch]));
    }
  }

  /** Two names the shell cannot tell apart: the receiver is accepted, the sender finds no user. */
  lemma LongNamesMissUser(pf: Platform, empty: Store, u: string, v: string, address: string, a: Choice, b: Choice)
    requires Fresh(empty) && IsWord(u) && IsWord(v) && UserKey(u) == UserKey(v) && u != v
    requires IsWord(address) && pf.isAddress(address) && pf.isValid(address)
    requires a.outcome == b.outcome == Committed
    ensures
      var row := TrapRow(address, DEFAULT_TRAP_PORT, v, V3, Trap);
      var lines := [Join(["snmpv3", "user", u]), Join(HostFields(row, false, false, true))];
      var st := Run(pf, empty, lines, [a, b]);
      row in st.traps && !SenderFinds(st.users, v)
  {
    var user := UserRow(u, NoAuth, "", NoPriv, "");
    var row := TrapRow(address, DEFAULT_TRAP_PORT, v, V3, Trap);
    var l1, l2 := Join(["snmpv3", "user", u]), Join(HostFields(row, false, false, true));
    assert UserFields(user) == ["snmpv3", "user", u];
    FirstUserRun(pf, empty, user, a);
    V3LineRun(pf, empty.(users := [user]), row, b);
    RunTwo(pf, empty, l1, l2, a, b);
  }

  function LevelWord(level: SecurityLevel): string {
    match level
    case NoAuthNoPriv => ""
    case AuthNoPriv => "auth"
    case AuthPriv => "priv"
  }

  function AuthName(auth: Auth): string
    requires auth != NoAuth
  {
    if auth == Md5 then "MD5" else "SHA"
  }

  function PrivName(priv: Priv): string
    requires priv != NoPriv
  {
    if priv == Aes then "AES" else "DES"
  }

  /** The two directives of user `u` in snmpd.conf ask for the security of session `s`. */
  predicate ConfGives(file: seq<Directive>, u: UserRow, s: Security)
    requires s.level.Some?
  {
    file == [
      CreateUser(u.name,
        if s.auth == NoAuth then None else Some((AuthName(s.auth), u.authPass)),
        if s.priv == NoPriv then None else Some((PrivName(s.priv), u.privPass))),
      RoUser(u.name, LevelWord(s.level.value))]
  }

  /** In every store, whatever shells have written it, the invalid-level error cannot happen, and
      snmpd.conf, the running config and the trap session give each user the same level, protocols and
      pass phrases. */
  lemma EveryReaderAgrees(pf: Platform, st: Store, u: UserRow)
    requires Stored(pf, st) && u in st.users
    ensures SessionFor(u).Some?
    ensures var s := SessionFor(u).value;
      && s.level.Some? && ConfGives(UserPart(u), u, s)
      && (s.priv != NoPriv ==> s.auth != NoAuth)
      && match Parse(pf, Join(UserFields(u)))
         case Some(SetUser(name, credentials)) =>
           name == u.name && NewUser(name, credentials) == u && SessionFor(NewUser(name, credentials)) == Some(s)
         case _ => false
  {
    var i :| 0 <= i < |st.users| && st.users[i] == u;
    UserLineParses(pf, u);
  }

  /** The pair of every user is in the rendered file. */
  lemma {:induction false} UserPartInFile(us: seq<UserRow>, i: nat)
    requires i < |us|
    ensures |UsersPart(us)| == 2 * |us|
    ensures [UsersPart(us)[2 * i], UsersPart(us)[2 * i + 1]] == UserPart(us[i])
    decreases |us|
  {
    var n := |us| - 1;
    var before, last := UsersPart(us[..n]), UserPart(us[n]);
    UsersPartLength(us);
    UsersPartLength(us[..n]);
    assert UsersPart(us) == before + last && |last| == 2;
    if i < n {
      UserPartInFile(us[..n], i);
      assert us[..n][i] == us[i];
      assert (before + last)[2 * i] == before[2 * i] && (before + last)[2 * i + 1] == before[2 * i + 1];
    } else {
      assert [last[0], last[1]] == last;
    }
  }
}
