/** The command lines, pattern by pattern. */
module CommandLines {
  import opened Words
  import opened SnmpStore
  import opened CommandGrammar

  lemma LineIsItsWords(pf: Platform, ws: seq<string>)
    requires AllWords(ws)
    ensures Parse(pf, Join(ws)) == ParseWords(pf, ws)
  {
    SplitOfWords(ws);
  }

  /** A line and its `no` form. */
  ghost predicate Means(pf: Platform, ws: seq<string>, set_: Command, unset: Command) {
    ParseWords(pf, ws) == Some(set_) && ParseWords(pf, ["no"] + ws) == Some(unset)
  }

  ghost predicate Refused(pf: Platform, ws: seq<string>) {
    ParseWords(pf, ws) == None && ParseWords(pf, ["no"] + ws) == None
  }

  lemma NoIsDropped(pf: Platform, ws: seq<string>)
    ensures ParseWords(pf, ["no"] + ws) == ParseUnset(pf, ws)
  {
    assert (["no"] + ws)[1..] == ws;
  }

  // ----- receivers

  function KindWord(kind: Kind): string {
    match kind case Trap => "trap" case Inform => "inform"
  }

  ghost predicate HostMeans(pf: Platform, ws: seq<string>, row: TrapRow) {
    Means(pf, ws, SetHost(row), UnsetHost(row))
  }

  lemma HostWords(pf: Platform, ws: seq<string>)
    requires |ws| >= 2 && ws[0] == "snmp-server" && ws[1] == "host"
    ensures HostArguments(pf, ws[2..]).Some? ==> HostMeans(pf, ws, HostArguments(pf, ws[2..]).value)
    ensures HostArguments(pf, ws[2..]).None? ==> Refused(pf, ws)
  {
    NoIsDropped(pf, ws);
  }

  lemma KeywordsSay(c: string, p: string)
    requires IsPort(p)
    ensures Keywords([], None, None) == Some((None, None))
    ensures Keywords(["community", c], None, None) == Some((Some(c), None))
    ensures Keywords(["port", p], None, None) == Some((None, Some(Number(p))))
    ensures Keywords(["community", c, "port", p], None, None) == Some((Some(c), Some(Number(p))))
    ensures Keywords(["port", p, "community", c], None, None) == Some((Some(c), Some(Number(p))))
  {
    assert ["community", c][2..] == [] && ["port", p][2..] == [];
    assert ["community", c, "port", p][2..] == ["port", p] && ["port", p, "community", c][2..] == ["community", c];
    assert "port"[0] == 'p' && "community"[0] == 'c';
    assert Keywords([], Some(c), Some(Number(p))) == Some((Some(c), Some(Number(p))));
    assert Keywords(["port", p], Some(c), None) == Some((Some(c), Some(Number(p))));
    assert Keywords(["community", c], None, Some(Number(p))) == Some((Some(c), Some(Number(p))));
  }

  /** The community patterns: any version 2c line, and version 1 for traps only; the keywords in any order;
      community public and port 162 unless given. */
  lemma CommunityHostLines(pf: Platform, a: string, kind: Kind, version: Version, c: string, p: string)
    requires pf.isAddress(a) && IsPort(p) && (version == V2c || (version == V1 && kind == Trap))
    ensures var head := ["snmp-server", "host", a, KindWord(kind), "version", if version == V1 then "v1" else "v2c"];
      && HostMeans(pf, head, TrapRow(a, 162, "public", version, kind))
      && HostMeans(pf, head + ["community", c], TrapRow(a, 162, c, version, kind))
      && HostMeans(pf, head + ["port", p], TrapRow(a, Number(p), "public", version, kind))
      && HostMeans(pf, head + ["community", c, "port", p], TrapRow(a, Number(p), c, version, kind))
      && HostMeans(pf, head + ["port", p, "community", c], TrapRow(a, Number(p), c, version, kind))
  {
    KeywordsSay(c, p);
    CommunityHostLine(pf, a, kind, version, []);
    CommunityHostLine(pf, a, kind, version, ["community", c]);
    CommunityHostLine(pf, a, kind, version, ["port", p]);
    CommunityHostLine(pf, a, kind, version, ["community", c, "port", p]);
    CommunityHostLine(pf, a, kind, version, ["port", p, "community", c]);
    var head := ["snmp-server", "host", a, KindWord(kind), "version", if version == V1 then "v1" else "v2c"];
    assert head + [] == head;
  }

  lemma CommunityHostLine(pf: Platform, a: string, kind: Kind, version: Version, tail: seq<string>)
    requires pf.isAddress(a) && (version == V2c || (version == V1 && kind == Trap))
    ensures
      var ws := ["snmp-server", "host", a, KindWord(kind), "version", if version == V1 then "v1" else "v2c"] + tail;
      match Keywords(tail, None, None)
      case Some((c, p)) =>
        var (port, community) := (if p.Some? then p.value else 162, if c.Some? then c.value else "public");
        HostMeans(pf, ws, TrapRow(a, port, community, version, kind))
      case None => Refused(pf, ws)
  {
    var ws := ["snmp-server", "host", a, KindWord(kind), "version", if version == V1 then "v1" else "v2c"] + tail;
    assert ws[2..][4..] == tail;
    HostWords(pf, ws);
  }

  /** The v3 patterns: the user is the community of the row. */
  lemma UserHostLines(pf: Platform, a: string, kind: Kind, u: string, p: string)
    requires pf.isAddress(a) && IsPort(p)
    ensures var head := ["snmp-server", "host", a, KindWord(kind), "version", "v3", "user", u];
      && HostMeans(pf, head, TrapRow(a, 162, u, V3, kind))
      && HostMeans(pf, head + ["port", p], TrapRow(a, Number(p), u, V3, kind))
  {
    var head := ["snmp-server", "host", a, KindWord(kind), "version", "v3", "user", u];
    HostWords(pf, head);
    HostWords(pf, head + ["port", p]);
    assert head[2..][6..] == [] && (head + ["port", p])[2..][6..] == ["port", p];
  }

  /** Nothing else is a receiver line. */
  lemma OnlyTheseHostLines(pf: Platform, ws: seq<string>)
    requires |ws| >= 2 && ws[0] == "snmp-server" && ws[1] == "host" && !Refused(pf, ws)
    ensures |ws| >= 6 && pf.isAddress(ws[2]) && ws[3] in ["trap", "inform"] && ws[4] == "version"
    ensures ws[5] in ["v1", "v2c", "v3"] && (ws[5] == "v1" ==> ws[3] == "trap")
    ensures ws[5] == "v3" ==> |ws| >= 8 && ws[6] == "user" && (ws[8..] == [] || IsPortKeyword(ws[8..]))
    ensures ws[5] != "v3" ==>
      var tail := ws[6..];
      || tail == [] || IsPortKeyword(tail) || IsCommunityKeyword(tail)
      || (|tail| == 4 && IsCommunityKeyword(tail[..2]) && IsPortKeyword(tail[2..]))
      || (|tail| == 4 && IsPortKeyword(tail[..2]) && IsCommunityKeyword(tail[2..]))
  {
    HostWords(pf, ws);
    assert ws[2..][4..] == ws[6..];
    if |ws| >= 8 {
      assert ws[2..][6..] == ws[8..];
    }
    if ws[5] != "v3" {
      OnlyTheseKeywords(ws[6..]);
    }
  }

  predicate IsPortKeyword(ws: seq<string>) {
    |ws| == 2 && ws[0] == "port" && IsPort(ws[1])
  }

  predicate IsCommunityKeyword(ws: seq<string>) {
    |ws| == 2 && ws[0] == "community"
  }

  lemma OnlyTheseKeywords(tail: seq<string>)
    requires Keywords(tail, None, None).Some?
    ensures
      || tail == [] || IsPortKeyword(tail) || IsCommunityKeyword(tail)
      || (|tail| == 4 && IsCommunityKeyword(tail[..2]) && IsPortKeyword(tail[2..]))
      || (|tail| == 4 && IsPortKeyword(tail[..2]) && IsCommunityKeyword(tail[2..]))
  {
    if |tail| >= 2 {
      var rest := tail[2..];
      if tail[0] == "community" {
        assert Keywords(tail, None, None) == Keywords(rest, Some(tail[1]), None);
        AfterBoth(rest, Some(tail[1]), None);
      } else {
        assert Keywords(tail, None, None) == Keywords(rest, None, Some(Number(tail[1])));
        AfterBoth(rest, None, Some(Number(tail[1])));
      }
    }
  }

  /** Once one keyword is given, only the other one may follow, once. */
  lemma AfterBoth(ws: seq<string>, c: Option<string>, p: Option<nat>)
    requires c.Some? != p.Some? && Keywords(ws, c, p).Some?
    ensures ws == [] || (p.None? && IsPortKeyword(ws)) || (c.None? && IsCommunityKeyword(ws))
  {
  }

  // ----- settings and communities

  /** The agent port, and the three settings that take the rest of the line. */
  lemma SettingLines(pf: Platform, p: string, text: seq<string>)
    requires IsPort(p) && text != []
    ensures Means(pf, ["snmp-server", "agent-port", p], SetConfig("snmp_agent_port", p), UnsetConfig("snmp_agent_port"))
    ensures ParseWords(pf, ["no", "snmp-server", "agent-port"]) == Some(UnsetConfig("snmp_agent_port"))
    ensures RestOfLine(pf, "system-description", "system_description", text)
    ensures RestOfLine(pf, "system-location", "system_location", text)
    ensures RestOfLine(pf, "system-contact", "system_contact", text)
  {
    NoIsDropped(pf, ["snmp-server", "agent-port", p]);
    NoIsDropped(pf, ["snmp-server", "agent-port"]);
    assert ["no"] + ["snmp-server", "agent-port"] == ["no", "snmp-server", "agent-port"];
    RestOfLineSays(pf, "system-description", "system_description", text);
    RestOfLineSays(pf, "system-location", "system_location", text);
    RestOfLineSays(pf, "system-contact", "system_contact", text);
  }

  ghost predicate RestOfLine(pf: Platform, word: string, key: string, text: seq<string>) {
    && Means(pf, ["snmp-server", word] + text, SetConfig(key, Join(text)), UnsetConfig(key))
    && ParseWords(pf, ["no", "snmp-server", word]) == Some(UnsetConfig(key))
  }

  lemma RestOfLineSays(pf: Platform, word: string, key: string, text: seq<string>)
    requires text != [] && LineKey(word) == Some(key) && word[0] == 's'
    ensures RestOfLine(pf, word, key, text)
  {
    assert (["snmp-server", word] + text)[2..] == text;
    NoIsDropped(pf, ["snmp-server", word] + text);
    NoIsDropped(pf, ["snmp-server", word]);
    assert ["no"] + ["snmp-server", word] == ["no", "snmp-server", word];
    assert "host"[0] == 'h' && "agent-port"[0] == 'a' && "community"[0] == 'c';
  }

  lemma CommunityLine(pf: Platform, name: string)
    ensures Means(pf, ["snmp-server", "community", name], SetCommunity(name), UnsetCommunity(name))
  {
    NoIsDropped(pf, ["snmp-server", "community", name]);
  }

  // ----- users

  lemma UserLines(pf: Platform, name: string, auth: string, pass: string, priv: string, privPass: string)
    requires auth in ["md5", "sha"] && priv in ["aes", "des"]
    ensures var head := ["snmpv3", "user", name];
      var a := ["auth", auth, "auth-pass", pass];
      var x := ["priv", priv, "priv-pass", privPass];
      var (authProtocol, privProtocol) := (if auth == "md5" then Md5 else Sha, if priv == "aes" then Aes else Des);
      && Means(pf, head, SetUser(name, Nothing), UnsetUser(name))
      && Means(pf, head + a, SetUser(name, AuthOnly(authProtocol, pass)), UnsetUser(name))
      && Means(pf, head + a + x,
               SetUser(name, AuthAndPriv(authProtocol, pass, privProtocol, privPass)), UnsetUser(name))
      && Refused(pf, head + x)
  {
    var head := ["snmpv3", "user", name];
    var a := ["auth", auth, "auth-pass", pass];
    var x := ["priv", priv, "priv-pass", privPass];
    NoIsDropped(pf, head);
    NoIsDropped(pf, head + a);
    NoIsDropped(pf, head + a + x);
    NoIsDropped(pf, head + x);
    assert head[3..] == [] && (head + a)[3..] == a && (head + a + x)[3..] == a + x && (head + x)[3..] == x;
    assert "priv"[0] == 'p' && "auth"[0] == 'a' && "md5" != "sha" && "aes" != "des";
  }

  /** No other line starts a command. */
  lemma OnlyTheseCommands(pf: Platform, ws: seq<string>)
    requires !Refused(pf, ws) && (|ws| == 0 || ws[0] != "no")
    ensures |ws| >= 2
    ensures
      || (ws[0] == "snmp-server" && ws[1] in ["host", "agent-port", "community", "system-description",
                                               "system-location", "system-contact"])
      || (ws[0] == "snmpv3" && ws[1] == "user" && |ws| in [3, 7, 11])
  {
    NoIsDropped(pf, ws);
  }

  // ----- numbers

  /** The value of a decimal number, digit by digit from the right. */
  function Power(k: nat): nat {
    if k == 0 then 1 else 10 * Power(k - 1)
  }

  lemma LastDigit(w: string, c: char)
    requires AllDigits(w) && IsDigit(c)
    ensures AllDigits(w + [c]) && Number(w + [c]) == 10 * Number(w) + (c as int - '0' as int)
  {
    assert (w + [c])[..|w|] == w;
  }

  lemma TenTimes(digit: nat, power: nat)
    ensures 10 * (digit * power) == digit * (10 * power)
  {
  }

  /** A leading digit counts ten to the number of digits behind it. */
  lemma {:induction false} LeadingDigit(c: char, w: string)
    requires IsDigit(c) && AllDigits(w)
    ensures AllDigits([c] + w)
    ensures Number([c] + w) == (c as int - '0' as int) * Power(|w|) + Number(w)
    decreases |w|
  {
    if w == [] {
      assert [c] + w == [] + [c];
      LastDigit([], c);
    } else {
      var n := |w| - 1;
      var front, last := w[..n], w[n];
      LeadingDigit(c, front);
      LastDigit(front, last);
      LastDigit([c] + front, last);
      assert front + [last] == w && [c] + front + [last] == [c] + w;
      TenTimes(c as int - '0' as int, Power(n));
    }
  }

  /** The default port, written and read. */
  lemma DefaultPort()
    ensures IsPort("162") && Number("162") == 162
  {
    LastDigit("", '1');
    LastDigit("1", '6');
    LastDigit("16", '2');
    assert "" + ['1'] == "1" && "1" + ['6'] == "16" && "16" + ['2'] == "162";
  }
}
