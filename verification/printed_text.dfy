/** The lines of the printed config, written out. */
module PrintedText {
  import opened Words
  import opened SnmpStore
  import opened RunningConfig

  lemma {:induction false} JoinOfTwoParts(a: seq<string>, b: seq<string>)
    requires a != [] && b != []
    ensures Join(a + b) == Join(a) + " " + Join(b)
  {
    if |a| == 1 {
      assert a + b == [a[0]] + b && (a + b)[1..] == b;
    } else {
      assert (a + b)[1..] == a[1..] + b;
      JoinOfTwoParts(a[1..], b);
      assert Join(a + b) == a[0] + " " + (Join(a[1..]) + " " + Join(b));
    }
  }

  lemma JoinOfTwo(a: string, b: string)
    ensures Join([a, b]) == a + " " + b
  {
    JoinOfTwoParts([a], [b]);
    assert [a] + [b] == [a, b];
  }

  lemma JoinOfThree(a: string, b: string, c: string)
    ensures Join([a, b, c]) == a + " " + b + " " + c
  {
    JoinOfTwo(a, b);
    JoinOfTwoParts([a, b], [c]);
    assert [a, b] + [c] == [a, b, c];
  }

  lemma JoinOfFour(a: string, b: string, c: string, d: string)
    ensures Join([a, b, c, d]) == a + " " + b + " " + c + " " + d
  {
    JoinOfThree(a, b, c);
    JoinOfTwoParts([a, b, c], [d]);
    assert [a, b, c] + [d] == [a, b, c, d];
  }

  // ----- receivers

  /** Community, port and user are printed exactly when some row up to this one has a value that is not the
      default; the user in place of the community. */
  lemma HostLineText(rows: seq<TrapRow>, i: nat)
    requires i < |rows|
    ensures var r := rows[i];
      var community := exists j :: 0 <= j <= i && rows[j].community != "public";
      var port := exists j :: 0 <= j <= i && rows[j].port != 162;
      var v3 := exists j :: 0 <= j <= i && rows[j].version == V3;
      HostLine(rows, i) ==
        "snmp-server host " + r.address + (if r.kind == Trap then " trap" else " inform")
        + (match r.version case V1 => " version v1" case V2c => " version v2c" case V3 => " version v3")
        + (if v3 then " user " + r.community else if community then " community " + r.community else "")
        + (if port then " port " + Decimal(r.port) else "")
  {
    var r, seen := rows[i], rows[..i + 1];
    SomeRow(rows, i);
    HostFieldsText(r, SomeCommunity(seen), SomePort(seen), SomeV3(seen));
  }

  lemma SomeRow(rows: seq<TrapRow>, i: nat)
    requires i < |rows|
    ensures SomeCommunity(rows[..i + 1]) <==> exists j :: 0 <= j <= i && rows[j].community != "public"
    ensures SomePort(rows[..i + 1]) <==> exists j :: 0 <= j <= i && rows[j].port != 162
    ensures SomeV3(rows[..i + 1]) <==> exists j :: 0 <= j <= i && rows[j].version == V3
  {
    var seen := rows[..i + 1];
    if j :| 0 <= j <= i && rows[j].community != "public" {
      assert seen[j].community != DEFAULT_COMMUNITY;
    }
    if j :| 0 <= j <= i && rows[j].port != 162 {
      assert seen[j].port != DEFAULT_TRAP_PORT;
    }
    if j :| 0 <= j <= i && rows[j].version == V3 {
      assert seen[j].version == V3;
    }
  }

  lemma HostFieldsText(r: TrapRow, community: bool, port: bool, v3: bool)
    ensures Join(HostFields(r, community, port, v3)) ==
      "snmp-server host " + r.address + (if r.kind == Trap then " trap" else " inform")
      + (match r.version case V1 => " version v1" case V2c => " version v2c" case V3 => " version v3")
      + (if v3 then " user " + r.community else if community then " community " + r.community else "")
      + (if port then " port " + Decimal(r.port) else "")
  {
    var head := ["snmp-server", "host", r.address, r.kind.Text(), "version", r.version.Text()];
    var middle := if v3 then ["user", r.community] else if community then ["community", r.community] else [];
    var last := if port then ["port", Decimal(r.port)] else [];
    HeadText(r);
    TailText(head, middle, last);
    KeywordText("user", r.community, " user ");
    KeywordText("community", r.community, " community ");
    KeywordText("port", Decimal(r.port), " port ");
    assert HostFields(r, community, port, v3) == head + middle + last;
  }

  lemma KeywordText(word: string, value: string, text: string)
    requires " " + word + " " == text
    ensures " " + Join([word, value]) == text + value
  {
    JoinOfTwo(word, value);
    assert " " + (word + " " + value) == " " + word + " " + value;
  }

  lemma HeadText(r: TrapRow)
    ensures Join(["snmp-server", "host", r.address, r.kind.Text(), "version", r.version.Text()]) ==
      "snmp-server host " + r.address + (if r.kind == Trap then " trap" else " inform")
      + (match r.version case V1 => " version v1" case V2c => " version v2c" case V3 => " version v3")
  {
    JoinOfThree("snmp-server", "host", r.address);
    JoinOfThree(r.kind.Text(), "version", r.version.Text());
    var front, back := ["snmp-server", "host", r.address], [r.kind.Text(), "version", r.version.Text()];
    JoinOfTwoParts(front, back);
    assert front + back == ["snmp-server", "host", r.address, r.kind.Text(), "version", r.version.Text()];
    AddressText(r.address);
    KindText(r.kind, r.version);
    Glue(Join(front), Join(back), if r.kind == Trap then " trap" else " inform",
         match r.version case V1 => " version v1" case V2c => " version v2c" case V3 => " version v3");
  }

  lemma Glue(front: string, back: string, kind: string, version: string)
    requires " " + back == kind + version
    ensures front + " " + back == front + kind + version
  {
    assert front + " " + back == front + (" " + back);
  }

  lemma AddressText(address: string)
    ensures "snmp-server" + " " + "host" + " " + address == "snmp-server host " + address
  {
    assert "snmp-server" + " " + "host" + " " == "snmp-server host ";
  }

  lemma KindText(kind: Kind, version: Version)
    ensures " " + (kind.Text() + " " + "version" + " " + version.Text()) ==
      (if kind == Trap then " trap" else " inform")
      + (match version case V1 => " version v1" case V2c => " version v2c" case V3 => " version v3")
  {
  }

  lemma TailText(head: seq<string>, middle: seq<string>, last: seq<string>)
    requires head != []
    ensures Join(head + middle + last) ==
      Join(head) + (if middle == [] then "" else " " + Join(middle)) + (if last == [] then "" else " " + Join(last))
  {
    assert head + [] == head && head + middle + [] == head + middle;
    if middle != [] {
      JoinOfTwoParts(head, middle);
    }
    if last != [] {
      JoinOfTwoParts(head + middle, last);
    }
  }

  // ----- users

  /** Each protocol that is not none is printed with its pass phrase, privacy only behind authentication. */
  lemma UserLineText(u: UserRow)
    ensures Join(UserFields(u)) ==
      "snmpv3 user " + u.name
      + (match u.auth
         case NoAuth => ""
         case Md5 => " auth md5 auth-pass " + u.authPass
         case Sha => " auth sha auth-pass " + u.authPass)
      + (if u.auth == NoAuth then "" else
         match u.priv
         case NoPriv => ""
         case Aes => " priv aes priv-pass " + u.privPass
         case Des => " priv des priv-pass " + u.privPass)
  {
    var head := ["snmpv3", "user", u.name];
    var auth := if u.auth == NoAuth then [] else ["auth", u.auth.Text(), "auth-pass", u.authPass];
    var priv := if u.auth == NoAuth || u.priv == NoPriv then [] else ["priv", u.priv.Text(), "priv-pass", u.privPass];
    UserHeadText(u.name);
    TailText(head, auth, priv);
    assert UserFields(u) == head + auth + priv;
    AuthText(u);
    PrivText(u);
  }

  lemma AuthText(u: UserRow)
    ensures u.auth != NoAuth ==>
      " " + Join(["auth", u.auth.Text(), "auth-pass", u.authPass]) ==
        (if u.auth == Md5 then " auth md5 auth-pass " else " auth sha auth-pass ") + u.authPass
  {
    if u.auth == Md5 {
      ProtocolText("auth", "md5", "auth-pass", u.authPass, " auth md5 auth-pass ");
    } else if u.auth == Sha {
      ProtocolText("auth", "sha", "auth-pass", u.authPass, " auth sha auth-pass ");
    }
  }

  lemma PrivText(u: UserRow)
    ensures u.priv != NoPriv ==>
      " " + Join(["priv", u.priv.Text(), "priv-pass", u.privPass]) ==
        (if u.priv == Aes then " priv aes priv-pass " else " priv des priv-pass ") + u.privPass
  {
    if u.priv == Aes {
      ProtocolText("priv", "aes", "priv-pass", u.privPass, " priv aes priv-pass ");
    } else if u.priv == Des {
      ProtocolText("priv", "des", "priv-pass", u.privPass, " priv des priv-pass ");
    }
  }

  lemma UserHeadText(name: string)
    ensures Join(["snmpv3", "user", name]) == "snmpv3 user " + name
  {
    JoinOfThree("snmpv3", "user", name);
    assert "snmpv3" + " " + "user" + " " == "snmpv3 user ";
  }

  lemma ProtocolText(word: string, protocol: string, passWord: string, pass: string, text: string)
    requires " " + word + " " + protocol + " " + passWord + " " == text
    ensures " " + Join([word, protocol, passWord, pass]) == text + pass
  {
    JoinOfFour(word, protocol, passWord, pass);
    assert " " + (word + " " + protocol + " " + passWord + " " + pass) ==
      " " + word + " " + protocol + " " + passWord + " " + pass;
  }

  // ----- settings, and the whole

  function SettingText(config: map<string, string>, key: string, word: string): seq<string> {
    if key in config then ["snmp-server " + word + " " + config[key]] else []
  }

  lemma SettingLineText(config: map<string, string>, key: string, word: string)
    ensures SettingLine(config, (key, word)) == SettingText(config, key, word)
  {
    if key in config {
      JoinOfThree("snmp-server", word, config[key]);
      assert "snmp-server" + " " == "snmp-server ";
    }
  }

  /** The settings in this order, the description only if the switch version is no prefix of it. */
  lemma SettingsText(st: Store)
    ensures var config := st.otherConfig;
      SettingLines(Shown(st), SETTINGS) ==
        SettingText(config, "snmp_agent_port", "agent-port")
        + (if "system_description" in config && !(st.switchVersion <= config["system_description"])
           then SettingText(config, "system_description", "system-description") else [])
        + SettingText(config, "system_location", "system-location")
        + SettingText(config, "system_contact", "system-contact")
  {
    FourSettings(Shown(st));
    SettingLineText(Shown(st), "snmp_agent_port", "agent-port");
    SettingLineText(Shown(st), "system_description", "system-description");
    SettingLineText(Shown(st), "system_location", "system-location");
    SettingLineText(Shown(st), "system_contact", "system-contact");
    assert "snmp_agent_port" != "system_description" by {
      assert "snmp_agent_port"[1] != "system_description"[1];
    }
    assert "system_location" != "system_description" && "system_contact" != "system_description" by {
      assert "system_location"[7] != "system_description"[7] && "system_contact"[7] != "system_description"[7];
    }
  }

  /** Settings, communities, receivers, users: one line for each row, in the order of the rows. */
  lemma ConfigText(st: Store)
    ensures var settings := SettingLines(Shown(st), SETTINGS);
      var (a, b, c) := (|settings|, |st.communities|, |st.traps|);
      var lines := ConfigLines(st);
      && |lines| == a + b + c + |st.users| && lines[..a] == settings
      && (forall i :: 0 <= i < b ==> lines[a + i] == "snmp-server community " + st.communities[i])
      && (forall i :: 0 <= i < c ==> lines[a + b + i] == HostLine(st.traps, i))
      && (forall i :: 0 <= i < |st.users| ==> lines[a + b + c + i] == Join(UserFields(st.users[i])))
  {
    forall i | 0 <= i < |st.communities|
      ensures CommunityLines(st.communities)[i] == "snmp-server community " + st.communities[i]
    {
      JoinOfThree("snmp-server", "community", st.communities[i]);
    }
  }
}
