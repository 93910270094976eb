/** What each command answers and changes, said on the fields of the rows. */
module CommandMeaning {
  import opened Words
  import opened SnmpStore
  import opened StoreInvariants

  // ----- how strings are compared

  /** A character of a string, or its end. */
  function CharAt(s: string, i: nat): Option<char> {
    if i < |s| then Some(s[i]) else None
  }

  /** strncmp(a, b, n) == 0. */
  predicate SameStart(a: string, b: string, n: nat) {
    forall i :: 0 <= i < n ==> CharAt(a, i) == CharAt(b, i)
  }

  lemma ClipIsSameStart(a: string, b: string, n: nat)
    ensures Clip(a, n) == Clip(b, n) <==> SameStart(a, b, n)
  {
    if Clip(a, n) == Clip(b, n) {
      forall i | 0 <= i < n ensures CharAt(a, i) == CharAt(b, i) {
        assert CharAt(Clip(a, n), i) == CharAt(a, i) && CharAt(Clip(b, n), i) == CharAt(b, i);
      }
    }
    if SameStart(a, b, n) {
      if |a| < n || |b| < n {
        assert CharAt(a, |a|).None? && CharAt(b, |b|).None?;
        assert |a| < n ==> CharAt(a, |a|) == CharAt(b, |a|);
        assert |b| < n ==> CharAt(a, |b|) == CharAt(b, |b|);
        assert |a| == |b|;
      }
      forall i | 0 <= i < |Clip(a, n)| && i < |Clip(b, n)| ensures Clip(a, n)[i] == Clip(b, n)[i] {
        assert CharAt(a, i) == CharAt(b, i);
      }
    }
  }

  predicate UserAgrees(users: seq<UserRow>, name: string) {
    exists i :: 0 <= i < |users| && SameStart(users[i].name, name, 33)
  }

  predicate ReceiverNames(traps: seq<TrapRow>, name: string) {
    exists i :: 0 <= i < |traps| && SameStart(traps[i].community, name, 33)
  }

  predicate CommunityAgrees(communities: seq<string>, name: string) {
    exists i :: 0 <= i < |communities| && SameStart(communities[i], name, 33)
  }

  /** A receiver with this address, port, version and kind; its community does not matter. */
  predicate ReceiverAgrees(traps: seq<TrapRow>, r: TrapRow) {
    exists i :: 0 <= i < |traps| &&
      SameStart(traps[i].address, r.address, 46) && traps[i].port == r.port && traps[i].version == r.version
      && traps[i].kind == r.kind
  }

  lemma SearchesAgree(st: Store, name: string, r: TrapRow)
    ensures HasUser(st.users, name) <==> UserAgrees(st.users, name)
    ensures TrapNames(st.traps, name) <==> ReceiverNames(st.traps, name)
    ensures HasCommunity(st.communities, name) <==> CommunityAgrees(st.communities, name)
    ensures HasTrap(st.traps, r) <==> ReceiverAgrees(st.traps, r)
  {
    UserSearch(st.users, name);
    ReceiverSearch(st.traps, name, r);
    forall i | 0 <= i < |st.communities|
      ensures CommunityKey(st.communities[i]) == CommunityKey(name) <==> SameStart(st.communities[i], name, 33)
    {
      ClipIsSameStart(st.communities[i], name, 33);
    }
  }

  lemma UserSearch(users: seq<UserRow>, name: string)
    ensures HasUser(users, name) <==> UserAgrees(users, name)
  {
    forall i | 0 <= i < |users|
      ensures UserKey(users[i].name) == UserKey(name) <==> SameStart(users[i].name, name, 33)
    {
      ClipIsSameStart(users[i].name, name, 33);
    }
  }

  lemma ReceiverSearch(traps: seq<TrapRow>, name: string, r: TrapRow)
    ensures TrapNames(traps, name) <==> ReceiverNames(traps, name)
    ensures HasTrap(traps, r) <==> ReceiverAgrees(traps, r)
  {
    forall i | 0 <= i < |traps|
      ensures UserKey(traps[i].community) == UserKey(name) <==> SameStart(traps[i].community, name, 33)
      ensures Clip(traps[i].address, 46) == Clip(r.address, 46) <==> SameStart(traps[i].address, r.address, 46)
    {
      ClipIsSameStart(traps[i].community, name, 33);
      ClipIsSameStart(traps[i].address, r.address, 46);
    }
  }

  // ----- what a command leaves alone

  /** Without a commit nothing changes, whatever the command. */
  lemma OnlyCommitsChange(pf: Platform, st: Store, cmd: Command, ch: Choice)
    requires ch.outcome != Committed
    ensures Perform(pf, st, cmd, ch).0 == st
  {
  }

  // ----- receivers

  /** A receiver is refused for the first of four reasons, in this order, and otherwise added, its place
      chosen by the database. */
  lemma SettingHost(pf: Platform, st: Store, r: TrapRow, ch: Choice)
    ensures var (after, reply) := Perform(pf, st, SetHost(r), ch);
      && reply ==
           (if st.trapCount > 30 then TooManyTraps
            else if !pf.isValid(r.address) then InvalidAddress
            else if r.version == V3 && !UserAgrees(st.users, r.community) then NoSuchUser
            else if ReceiverAgrees(st.traps, r) then TrapExists
            else Silent)
      && (reply != Silent || ch.outcome != Committed ==> after == st)
      && (reply == Silent && ch.outcome == Committed ==>
            && multiset(after.traps) == multiset(st.traps) + multiset{r}
            && after == st.(traps := after.traps, trapCount := st.trapCount + 1))
  {
    SearchesAgree(st, r.community, r);
    InsertAtElements(st.traps, ch.slot, r);
  }

  /** Removing a receiver removes the rows of its address, port, version and kind, whatever their community. */
  lemma RemovingHost(pf: Platform, st: Store, r: TrapRow, ch: Choice)
    requires ch.outcome == Committed
    ensures var (after, reply) := Perform(pf, st, UnsetHost(r), ch);
      && reply == Silent && after == st.(traps := after.traps)
      && forall t :: t in after.traps <==>
           t in st.traps &&
           !(t.address == r.address && t.port == r.port && t.version == r.version && t.kind == r.kind)
  {
    WithoutTrapRows(st.traps, r);
  }

  /** So a line that names any community removes the row. */
  lemma AnyCommunityRemoves(pf: Platform, st: Store, r: TrapRow, community: string, ch: Choice)
    requires ch.outcome == Committed
    ensures r !in Perform(pf, st, UnsetHost(r.(community := community)), ch).0.traps
  {
    RemovingHost(pf, st, r.(community := community), ch);
  }

  // ----- settings

  /** The other settings stay; a description that is removed becomes the switch version. */
  lemma ChangingSettings(pf: Platform, st: Store, key: string, value: string, ch: Choice)
    requires ch.outcome == Committed
    ensures var (after, reply) := Perform(pf, st, SetConfig(key, value), ch);
      && reply == Silent && after == st.(otherConfig := after.otherConfig)
      && key in after.otherConfig && after.otherConfig[key] == value
      && OthersStay(st.otherConfig, after.otherConfig, key)
    ensures var (after, reply) := Perform(pf, st, UnsetConfig(key), ch);
      && reply == Silent && after == st.(otherConfig := after.otherConfig)
      && (if key == "system_description"
          then key in after.otherConfig && after.otherConfig[key] == st.switchVersion
          else key !in after.otherConfig)
      && OthersStay(st.otherConfig, after.otherConfig, key)
  {
  }

  ghost predicate OthersStay(before: map<string, string>, after: map<string, string>, key: string) {
    forall other :: other != key ==>
      (other in after <==> other in before) && (other in before ==> after[other] == before[other])
  }

  // ----- communities

  lemma SettingCommunity(pf: Platform, st: Store, name: string, ch: Choice)
    ensures var (after, reply) := Perform(pf, st, SetCommunity(name), ch);
      && reply ==
           (if ch.outcome == NoTransaction then Silent
            else if |st.communities| == 10 then TooManyCommunities
            else if CommunityAgrees(st.communities, name) then CommunityExists
            else Silent)
      && (reply != Silent || ch.outcome != Committed ==> after == st)
      && (reply == Silent && ch.outcome == Committed ==> after == st.(communities := st.communities + [name]))
  {
    SearchesAgree(st, name, TrapRow("", 0, "", V1, Trap));
  }

  lemma RemovingCommunity(pf: Platform, st: Store, name: string, ch: Choice)
    ensures var (after, reply) := Perform(pf, st, UnsetCommunity(name), ch);
      && reply == (if name in st.communities then Silent else CommunityNotConfigured)
      && after == st.(communities := after.communities)
      && (ch.outcome != Committed ==> after == st)
      && (ch.outcome == Committed ==> forall c :: c in after.communities <==> c in st.communities && c != name)
  {
    WithoutCommunityRows(st.communities, name);
  }

  // ----- users

  /** The row of a user: protocols and pass phrases as given, the others none. */
  predicate IsNewUser(u: UserRow, name: string, credentials: Credentials) {
    u.name == name &&
    match credentials
    case Nothing => u.auth == NoAuth && u.authPass == "" && u.priv == NoPriv && u.privPass == ""
    case AuthOnly(auth, pass) => u.auth == auth && u.authPass == pass && u.priv == NoPriv && u.privPass == ""
    case AuthAndPriv(auth, pass, priv, privPass) =>
      u.auth == auth && u.authPass == pass && u.priv == priv && u.privPass == privPass
  }

  lemma SettingUser(pf: Platform, st: Store, name: string, credentials: Credentials, ch: Choice)
    ensures var (after, reply) := Perform(pf, st, SetUser(name, credentials), ch);
      && reply == (if UserAgrees(st.users, name) then UserExists else Silent)
      && (reply != Silent || ch.outcome != Committed ==> after == st)
      && (reply == Silent && ch.outcome == Committed ==>
            && after == st.(users := after.users)
            && exists u :: IsNewUser(u, name, credentials) && multiset(after.users) == multiset(st.users) + multiset{u})
  {
    UserSearch(st.users, name);
    var u := NewUser(name, credentials);
    InsertAtElements(st.users, ch.slot, u);
    assert IsNewUser(u, name, credentials);
  }

  /** A user some receiver names, of whatever version, stays. */
  lemma RemovingUser(pf: Platform, st: Store, name: string, ch: Choice)
    ensures var (after, reply) := Perform(pf, st, UnsetUser(name), ch);
      && reply ==
           (if ReceiverNames(st.traps, name) then TrapStillPresent
            else if ch.outcome == NoTransaction || UserAgrees(st.users, name) then Silent
            else UserNotConfigured)
      && after == st.(users := after.users)
      && (reply == TrapStillPresent || ch.outcome != Committed ==> after == st)
      && (reply != TrapStillPresent && ch.outcome == Committed ==>
            forall u :: u in after.users <==> u in st.users && !SameStart(u.name, name, 33))
  {
    UserSearch(st.users, name);
    ReceiverSearch(st.traps, name, TrapRow("", 0, "", V1, Trap));
    WithoutUserRows(st.users, name);
    forall u: UserRow ensures UserKey(u.name) == UserKey(name) <==> SameStart(u.name, name, 33) {
      ClipIsSameStart(u.name, name, 33);
    }
  }
}
