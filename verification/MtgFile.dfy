/**
What an mtg process finds in its configuration file: a reader for the part of TOML the panel writes
(bare keys, sections, texts, numbers, flags and lists of one text), and what it reads in the file
rendered for an instance (internal/mtproto/manager.go:334-371).
*/
module MtgFile {
  import opened Text
  import opened MtgConfig
  import opened MtgFleet
  import Json

  // ---------------------------------------------------------------- the reader

  datatype Setting = Text(text: string) | Number(n: int) | Flag(b: bool) | Texts(items: seq<string>)

  /** Settings by section, the empty one first, and key. */
  type Settings = map<(string, string), Setting>

  /** A quoted text at the front of `s`, and what follows it. */
  function Unquote(s: string): Option<(string, string)> {
    if s != "" && s[0] == '"' then Json.ReadString(s[1..]) else None
  }

  function ReadSetting(s: string): (r: Option<(Setting, string)>)
    ensures r.Some? ==> |r.value.1| <= |s|
  {
    if s == "" then None
    else if s[0] == '"' then
      match Unquote(s)
      case None => None
      case Some((t, rest)) => Some((Text(t), rest))
    else if s[0] == '[' then
      match Unquote(s[1..])
      case None => None
      case Some((t, rest)) => if rest != "" && rest[0] == ']' then Some((Texts([t]), rest[1..])) else None
    else
      var end := IndexOf(s, '\n');
      if s[..end] == "true" then Some((Flag(true), s[end..]))
      else if s[..end] == "false" then Some((Flag(false), s[end..]))
      else
        match Atoi(s[..end])
        case None => None
        case Some(n) => Some((Number(n), s[end..]))
  }

  const EQUALS := " = "

  /** Line after line; a key given twice is an error. */
  function ReadFile(s: string, section: string, sofar: Settings): Option<Settings>
    decreases |s|
  {
    if s == "" then Some(sofar)
    else if s[0] == '\n' then ReadFile(s[1..], section, sofar)
    else if s[0] == '[' then
      var end := IndexOf(s, ']');
      if end + 1 < |s| && s[end + 1] == '\n' then ReadFile(s[end + 2..], s[1..end], sofar) else None
    else
      var blank := IndexOf(s, ' ');
      var key := s[..blank];
      if !(EQUALS <= s[blank..]) || (section, key) in sofar then None
      else
        match ReadSetting(s[blank + 3..])
        case None => None
        case Some((value, rest)) =>
          if rest != "" && rest[0] == '\n' then ReadFile(rest[1..], section, sofar[(section, key) := value]) else None
  }

  // ---------------------------------------------------------------- what an instance asks for

  function If(c: bool, v: Setting): Option<Setting> { if c then Some(v) else None }

  /** The setting an instance asks for under a key of a section, if any. */
  function Wanted(inst: Instance, metricsPort: int, section: string, key: string): Option<Setting> {
    var address := if inst.listen == "" then "0.0.0.0" else inst.listen;
    var fronted := inst.frontingIp != "" || inst.frontingPort > 0 || inst.frontingProxyProtocol;
    if section == "" then
      if key == "secret" then Some(Text(inst.secret))
      else if key == "bind-to" then Some(Text(address + ":" + Itoa(inst.port)))
      else if key == "debug" then If(inst.debug, Flag(true))
      else if key == "proxy-protocol-listener" then If(inst.proxyProtocolListener, Flag(true))
      else if key == "prefer-ip" then If(inst.preferIp != "", Text(inst.preferIp))
      else None
    else if section == "domain-fronting" then
      if key == "ip" then If(inst.frontingIp != "", Text(inst.frontingIp))
      else if key == "port" then If(inst.frontingPort > 0, Number(inst.frontingPort))
      else if key == "proxy-protocol" then If(inst.frontingProxyProtocol, Flag(true))
      else None
    else if section == "network" then
      If(key == "proxies" && inst.routeThroughXray && inst.xrayRoutePort > 0,
         Texts(["socks5://127.0.0.1:" + Itoa(inst.xrayRoutePort)]))
    else if section == "stats.prometheus" then
      if key == "enabled" then Some(Flag(true))
      else if key == "bind-to" then Some(Text("127.0.0.1:" + Itoa(metricsPort)))
      else if key == "http-path" then Some(Text("/metrics"))
      else if key == "metric-prefix" then Some(Text("mtg"))
      else None
    else None
  }

  function Find(m: Settings, section: string, key: string): Option<Setting> {
    if (section, key) in m then Some(m[(section, key)]) else None
  }

  /** The quoting verb prints texts that read back, whatever follows. */
  ghost predicate Quotes(quote: string -> string) { forall s, rest :: QuotesText(quote, s, rest) }

  predicate QuotesText(quote: string -> string, s: string, rest: string) {
    quote(s) != "" && quote(s)[0] == '"' && Unquote(quote(s) + rest) == Some((s, rest))
  }

  /** Quoting as in JSON strings does. */
  lemma JsonQuotes()
    ensures Quotes(Json.Quote)
  {
    hide Json.Quote, Unquote;
    forall s, rest ensures QuotesText(Json.Quote, s, rest) {
      JsonQuoteReads(s, rest);
    }
  }

  lemma JsonQuoteReads(s: string, rest: string)
    ensures Json.Quote(s) != "" && Json.Quote(s)[0] == '"' && Unquote(Json.Quote(s) + rest) == Some((s, rest))
  {
    hide Json.ReadString, Json.EscapeAll;
    Json.StringReadBack(s, rest);
    assert (Json.Quote(s) + rest)[1..] == Json.EscapeAll(s) + "\"" + rest;
  }

  // ---------------------------------------------------------------- reading one line

  predicate PlainKey(key: string) { key != "" && ' ' !in key && key[0] != '\n' && key[0] != '[' }

  lemma LineReads(key: string, text: string, value: Setting, rest: string, section: string, sofar: Settings)
    requires PlainKey(key) && (section, key) !in sofar
    requires ReadSetting(text + ("\n" + rest)) == Some((value, "\n" + rest))
    ensures ReadFile(key + (EQUALS + (text + ("\n" + rest))), section, sofar)
            == ReadFile(rest, section, sofar[(section, key) := value])
  {
    hide ReadSetting;
    var body := text + ("\n" + rest);
    var s := key + (EQUALS + body);
    IndexOfPrefix(key, ' ', "= " + body);
    assert s == key + [' '] + ("= " + body);
    assert s[|key|..] == EQUALS + body && s[|key| + 3..] == body && s[..|key|] == key && s[0] == key[0];
    assert ("\n" + rest)[1..] == rest;
  }

  lemma BlankLine(rest: string, section: string, sofar: Settings)
    ensures ReadFile("\n" + rest, section, sofar) == ReadFile(rest, section, sofar)
  {
    assert ("\n" + rest)[1..] == rest;
  }

  lemma HeaderReads(name: string, rest: string, section: string, sofar: Settings)
    requires ']' !in name
    ensures ReadFile("[" + (name + ("]\n" + rest)), section, sofar) == ReadFile(rest, name, sofar)
  {
    var s := "[" + (name + ("]\n" + rest));
    assert ']' !in "[";
    assert ']' !in "[" + name;
    IndexOfPrefix("[" + name, ']', "\n" + rest);
    assert s == ("[" + name) + [']'] + ("\n" + rest);
    assert s[1..|name| + 1] == name && s[|name| + 3..] == rest && s[|name| + 2] == '\n';
  }

  // ---------------------------------------------------------------- reading settings

  lemma QuotedSetting(quote: string -> string, t: string, rest: string)
    requires Quotes(quote)
    ensures ReadSetting(quote(t) + rest) == Some((Text(t), rest))
  {
    hide Unquote;
    var s := quote(t) + rest;
    assert QuotesText(quote, t, rest);
    assert s[0] == quote(t)[0];
  }

  predicate PlainText(t: string) { forall c :: c in t ==> c >= ' ' && c != '"' && c != '\\' }

  lemma {:induction false} PlainReads(t: string, rest: string)
    requires PlainText(t)
    ensures Json.ReadString(t + ("\"" + rest)) == Some((t, rest))
  {
    var s := t + ("\"" + rest);
    if t == "" {
      assert s[1..] == rest;
    } else {
      assert t[0] in t && s[1..] == t[1..] + ("\"" + rest);
      assert forall c :: c in t[1..] ==> c in t;
      PlainReads(t[1..], rest);
      assert [t[0]] + t[1..] == t;
    }
  }

  lemma PlainSetting(t: string, rest: string)
    requires PlainText(t)
    ensures Unquote("\"" + (t + ("\"" + rest))) == Some((t, rest))
    ensures ReadSetting("\"" + (t + ("\"" + rest))) == Some((Text(t), rest))
  {
    hide Json.ReadString;
    PlainReads(t, rest);
    assert ("\"" + (t + ("\"" + rest)))[1..] == t + ("\"" + rest);
  }

  lemma ListSetting(t: string, rest: string)
    requires PlainText(t)
    ensures ReadSetting("[" + ("\"" + (t + ("\"" + ("]" + rest))))) == Some((Texts([t]), rest))
  {
    hide Unquote;
    PlainSetting(t, "]" + rest);
    var s := "[" + ("\"" + (t + ("\"" + ("]" + rest))));
    assert s[1..] == "\"" + (t + ("\"" + ("]" + rest))) && ("]" + rest)[1..] == rest;
  }

  lemma TrueSetting(rest: string)
    ensures ReadSetting("true" + ("\n" + rest)) == Some((Flag(true), "\n" + rest))
  {
    var s := "true" + ("\n" + rest);
    assert '\n' !in "true";
    IndexOfPrefix("true", '\n', rest);
    assert s == "true" + ['\n'] + rest && s[..4] == "true" && s[4..] == "\n" + rest;
  }

  lemma NumberSetting(n: int, rest: string)
    ensures ReadSetting(Itoa(n) + ("\n" + rest)) == Some((Number(n), "\n" + rest))
  {
    var digits := Itoa(n);
    var s := digits + ("\n" + rest);
    ItoaChars(n);
    ItoaReadBack(n);
    hide Itoa, Atoi;
    assert '\n' !in digits;
    IndexOfPrefix(digits, '\n', rest);
    assert s == digits + ['\n'] + rest && s[..|digits|] == digits && s[|digits|..] == "\n" + rest && s[0] == digits[0];
    assert digits != "true" && digits != "false" by {
      assert "true"[0] == 't' && "false"[0] == 'f';
    }
  }

  lemma ItoaChars(n: int)
    ensures forall c :: c in Itoa(n) ==> c == '-' || IsDigit(c)
  {
    var s := Itoa(n);
    forall i | 0 <= i < |s| ensures s[i] == '-' || IsDigit(s[i]) {
      if i > 0 { assert s[i] == s[1..][i - 1]; }
    }
  }

  // ---------------------------------------------------------------- the parts of the file

  lemma TextLine(quote: string -> string, key: string, t: string, rest: string, section: string, sofar: Settings)
    requires Quotes(quote) && PlainKey(key) && (section, key) !in sofar
    ensures ReadFile(key + (EQUALS + (quote(t) + ("\n" + rest))), section, sofar)
            == ReadFile(rest, section, sofar[(section, key) := Text(t)])
  {
    hide Quotes, ReadSetting;
    QuotedSetting(quote, t, "\n" + rest);
    LineReads(key, quote(t), Text(t), rest, section, sofar);
  }

  lemma FlagLine(key: string, rest: string, section: string, sofar: Settings)
    requires PlainKey(key) && (section, key) !in sofar
    ensures ReadFile(key + (EQUALS + ("true" + ("\n" + rest))), section, sofar)
            == ReadFile(rest, section, sofar[(section, key) := Flag(true)])
  {
    hide ReadSetting;
    TrueSetting(rest);
    LineReads(key, "true", Flag(true), rest, section, sofar);
  }

  lemma PlainLine(key: string, t: string, rest: string, section: string, sofar: Settings)
    requires PlainText(t) && PlainKey(key) && (section, key) !in sofar
    ensures ReadFile(key + (EQUALS + ("\"" + (t + ("\"" + ("\n" + rest))))), section, sofar)
            == ReadFile(rest, section, sofar[(section, key) := Text(t)])
  {
    hide ReadSetting;
    PlainSetting(t, "\n" + rest);
    var text := "\"" + (t + "\"");
    assert text + ("\n" + rest) == "\"" + (t + ("\"" + ("\n" + rest)));
    LineReads(key, text, Text(t), rest, section, sofar);
  }

  /** An optional line is there or not. */
  function With(m: Settings, section: string, key: string, v: Option<Setting>): Settings {
    if v.Some? then m[(section, key) := v.value] else m
  }

  lemma HeadReads(quote: string -> string, inst: Instance, rest: string)
    requires Quotes(quote)
    ensures ReadFile(HeadText(quote, BindTo(inst), inst.secret) + rest, "", map[])
            == ReadFile(rest, "", map[("", "secret") := Text(inst.secret), ("", "bind-to") := Text(BindTo(inst))])
  {
    hide Quotes, ReadFile;
    var bind := "bind-to" + (EQUALS + (quote(BindTo(inst)) + ("\n" + rest)));
    HeadIs(quote(inst.secret), quote(BindTo(inst)), rest);
    TextLine(quote, "secret", inst.secret, bind, "", map[]);
    TextLine(quote, "bind-to", BindTo(inst), rest, "", map[("", "secret") := Text(inst.secret)]);
  }

  lemma HeadIs(secret: string, bindTo: string, rest: string)
    ensures ("secret = " + secret + "\nbind-to = " + bindTo + "\n") + rest
            == "secret" + (EQUALS + (secret + ("\n" + ("bind-to" + (EQUALS + (bindTo + ("\n" + rest)))))))
  {
    assert "secret = " == "secret" + EQUALS && "\nbind-to = " == "\n" + ("bind-to" + EQUALS);
    var a, b := "secret" + EQUALS, "\n" + ("bind-to" + EQUALS);
    assert (a + secret + b + bindTo + "\n") + rest == a + (secret + (b + (bindTo + ("\n" + rest))));
  }

  lemma FlagText(key: string, rest: string)
    ensures (key + " = true\n") + rest == key + (EQUALS + ("true" + ("\n" + rest)))
  {
    assert " = true\n" == EQUALS + ("true" + "\n");
  }

  lemma OptionalFlag(on: bool, key: string, line: string, rest: string, section: string, m: Settings)
    requires PlainKey(key) && (section, key) !in m && line == if on then key + " = true\n" else ""
    ensures ReadFile(line + rest, section, m) == ReadFile(rest, section, With(m, section, key, If(on, Flag(true))))
  {
    hide ReadFile;
    if on {
      FlagText(key, rest);
      FlagLine(key, rest, section, m);
    } else {
      assert "" + rest == rest;
    }
  }

  lemma PreferReads(quote: string -> string, inst: Instance, rest: string, m: Settings)
    requires Quotes(quote) && m.Keys == {("", "secret"), ("", "bind-to")}
    ensures ReadFile(PreferText(quote, inst.debug, inst.proxyProtocolListener, inst.preferIp) + rest, "", m)
            == ReadFile(rest, "", Preferred(inst, m))
  {
    hide Quotes, ReadFile, PreferLine, PlainKey;
    var d := if inst.debug then "debug = true\n" else "";
    var l := if inst.proxyProtocolListener then "proxy-protocol-listener = true\n" else "";
    var p := PreferLine(quote, inst.preferIp);
    Regroup(d, l, p, rest);
    FlagLines();
    OptionalFlag(inst.debug, "debug", d, l + (p + rest), "", m);
    var m1 := With(m, "", "debug", If(inst.debug, Flag(true)));
    OptionalFlag(inst.proxyProtocolListener, "proxy-protocol-listener", l, p + rest, "", m1);
    PreferLineReads(quote, inst, rest, With(m1, "", "proxy-protocol-listener", If(inst.proxyProtocolListener, Flag(true))));
  }

  lemma FlagLines()
    ensures "debug = true\n" == "debug" + " = true\n" && PlainKey("debug")
    ensures "proxy-protocol-listener = true\n" == "proxy-protocol-listener" + " = true\n" && PlainKey("proxy-protocol-listener")
    ensures "proxy-protocol = true\n" == "proxy-protocol" + " = true\n" && PlainKey("proxy-protocol")
    ensures "enabled = true\n" == "enabled" + " = true\n" && PlainKey("enabled")
  {
  }

  lemma PreferLineReads(quote: string -> string, inst: Instance, rest: string, m: Settings)
    requires Quotes(quote) && ("", "prefer-ip") !in m
    ensures ReadFile(PreferLine(quote, inst.preferIp) + rest, "", m)
            == ReadFile(rest, "", With(m, "", "prefer-ip", If(inst.preferIp != "", Text(inst.preferIp))))
  {
    hide Quotes, ReadFile;
    if inst.preferIp != "" {
      QuotedLineIs("prefer-ip", quote(inst.preferIp), rest);
      assert "prefer-ip = " == "prefer-ip" + EQUALS;
      TextLine(quote, "prefer-ip", inst.preferIp, rest, "", m);
    } else {
      assert "" + rest == rest;
    }
  }

  lemma QuotedLineIs(key: string, quoted: string, rest: string)
    ensures ((key + EQUALS) + quoted + "\n") + rest == key + (EQUALS + (quoted + ("\n" + rest)))
  {
  }

  lemma Regroup(a: string, b: string, c: string, rest: string)
    ensures (a + b + c) + rest == a + (b + (c + rest))
  {
  }

  function Preferred(inst: Instance, m: Settings): Settings {
    With(With(With(m, "", "debug", If(inst.debug, Flag(true))),
              "", "proxy-protocol-listener", If(inst.proxyProtocolListener, Flag(true))),
         "", "prefer-ip", If(inst.preferIp != "", Text(inst.preferIp)))
  }

  function Fronted(inst: Instance, m: Settings): Settings {
    With(With(With(m, "domain-fronting", "ip", If(inst.frontingIp != "", Text(inst.frontingIp))),
              "domain-fronting", "port", If(inst.frontingPort > 0, Number(inst.frontingPort))),
         "domain-fronting", "proxy-protocol", If(inst.frontingProxyProtocol, Flag(true)))
  }

  ghost predicate NothingIn(m: Settings, section: string) { forall k: string :: (section, k) !in m }

  /** The section of domain fronting, if one of its settings is asked for. */
  lemma FrontingReads(quote: string -> string, inst: Instance, rest: string, m: Settings) returns (section: string)
    requires Quotes(quote) && NothingIn(m, "domain-fronting")
    ensures ReadFile(FrontingText(quote, inst.frontingIp, inst.frontingPort, inst.frontingProxyProtocol) + rest, "", m)
            == ReadFile(rest, section, Fronted(inst, m))
  {
    hide Quotes, ReadFile, NothingIn;
    if inst.frontingIp != "" || inst.frontingPort > 0 || inst.frontingProxyProtocol {
      section := "domain-fronting";
      var ip := if inst.frontingIp != "" then "ip = " + quote(inst.frontingIp) + "\n" else "";
      var port := if inst.frontingPort > 0 then "port = " + Itoa(inst.frontingPort) + "\n" else "";
      var flag := if inst.frontingProxyProtocol then "proxy-protocol = true\n" else "";
      var body := ip + (port + (flag + rest));
      FrontingHeader(ip, port, flag, rest);
      BlankLine("[" + ("domain-fronting" + ("]\n" + body)), "", m);
      HeaderReads("domain-fronting", body, "", m);
      FrontingLines(quote, inst, rest, m);
    } else {
      section := "";
      assert "" + rest == rest;
    }
  }

  lemma FrontingHeader(ip: string, port: string, flag: string, rest: string)
    ensures ("\n[domain-fronting]\n" + ip + port + flag) + rest
            == "\n" + ("[" + ("domain-fronting" + ("]\n" + (ip + (port + (flag + rest))))))
    ensures ']' !in "domain-fronting"
  {
    assert "\n[domain-fronting]\n" == "\n" + ("[" + ("domain-fronting" + "]\n"));
    Regroup(ip, port, flag, rest);
    var h := "\n" + ("[" + ("domain-fronting" + "]\n"));
    var body := ip + (port + (flag + rest));
    assert (h + ip + port + flag) + rest == h + body;
    assert h + body == "\n" + ("[" + ("domain-fronting" + ("]\n" + body)));
  }

  lemma FrontingLines(quote: string -> string, inst: Instance, rest: string, m: Settings)
    requires Quotes(quote) && NothingIn(m, "domain-fronting")
    ensures var ip := if inst.frontingIp != "" then "ip = " + quote(inst.frontingIp) + "\n" else "";
            var port := if inst.frontingPort > 0 then "port = " + Itoa(inst.frontingPort) + "\n" else "";
            var flag := if inst.frontingProxyProtocol then "proxy-protocol = true\n" else "";
            ReadFile(ip + (port + (flag + rest)), "domain-fronting", m) == ReadFile(rest, "domain-fronting", Fronted(inst, m))
  {
    hide Quotes, ReadFile, ReadSetting;
    var section := "domain-fronting";
    var port := if inst.frontingPort > 0 then "port = " + Itoa(inst.frontingPort) + "\n" else "";
    var flag := if inst.frontingProxyProtocol then "proxy-protocol = true\n" else "";
    var m1 := With(m, section, "ip", If(inst.frontingIp != "", Text(inst.frontingIp)));
    var m2 := With(m1, section, "port", If(inst.frontingPort > 0, Number(inst.frontingPort)));
    if inst.frontingIp != "" {
      assert "ip = " == "ip" + EQUALS;
      QuotedLineIs("ip", quote(inst.frontingIp), port + (flag + rest));
      TextLine(quote, "ip", inst.frontingIp, port + (flag + rest), section, m);
    } else {
      assert "" + (port + (flag + rest)) == port + (flag + rest);
    }
    if inst.frontingPort > 0 {
      assert "port = " == "port" + EQUALS;
      QuotedLineIs("port", Itoa(inst.frontingPort), flag + rest);
      NumberSetting(inst.frontingPort, flag + rest);
      LineReads("port", Itoa(inst.frontingPort), Number(inst.frontingPort), flag + rest, section, m1);
    } else {
      assert "" + (flag + rest) == flag + rest;
    }
    if inst.frontingProxyProtocol {
      assert "proxy-protocol = true\n" == "proxy-protocol" + " = true\n";
      FlagText("proxy-protocol", rest);
      FlagLine("proxy-protocol", rest, section, m2);
    } else {
      assert "" + rest == rest;
    }
  }

  function Routed(inst: Instance, m: Settings): Settings {
    With(m, "network", "proxies", If(inst.routeThroughXray && inst.xrayRoutePort > 0,
                                     Texts(["socks5://127.0.0.1:" + Itoa(inst.xrayRoutePort)])))
  }

  lemma RoutingReads(inst: Instance, rest: string, section: string, m: Settings) returns (section': string)
    requires NothingIn(m, "network")
    ensures ReadFile(RoutingText(inst.routeThroughXray, inst.xrayRoutePort) + rest, section, m)
            == ReadFile(rest, section', Routed(inst, m))
  {
    hide ReadFile, ReadSetting;
    if inst.routeThroughXray && inst.xrayRoutePort > 0 {
      section' := "network";
      var url := "socks5://127.0.0.1:" + Itoa(inst.xrayRoutePort);
      var line := "[" + ("\"" + (url + "\"]"));
      var body := "proxies" + (EQUALS + (line + ("\n" + rest)));
      RoutingIs(url, rest);
      UrlIsPlain(inst.xrayRoutePort);
      BlankLine("[" + ("network" + ("]\n" + body)), section, m);
      HeaderReads("network", body, section, m);
      ListSetting(url, "\n" + rest);
      ListIs(url, rest);
      LineReads("proxies", line, Texts([url]), rest, "network", m);
    } else {
      section' := section;
      assert "" + rest == rest;
    }
  }

  lemma ListIs(url: string, rest: string)
    ensures ("[" + ("\"" + (url + "\"]"))) + ("\n" + rest) == "[" + ("\"" + (url + ("\"" + ("]" + ("\n" + rest)))))
  {
    assert "\"]" == "\"" + "]";
  }

  lemma UrlIsPlain(port: int)
    ensures PlainText("socks5://127.0.0.1:" + Itoa(port)) && PlainText("127.0.0.1:" + Itoa(port))
    ensures PlainText("/metrics") && PlainText("mtg") && ']' !in "network" && ']' !in "stats.prometheus"
  {
    ItoaChars(port);
    hide Itoa;
  }

  lemma RoutingIs(url: string, rest: string)
    ensures ("\n[network]\n" + ("proxies = [\"" + url + "\"]\n")) + rest
            == "\n" + ("[" + ("network" + ("]\n" + ("proxies" + (EQUALS + (("[" + ("\"" + (url + "\"]"))) + ("\n" + rest)))))))
  {
    var a := "proxies" + (EQUALS + ("[" + "\""));
    assert "\n[network]\n" == "\n" + ("[" + ("network" + "]\n"));
    assert "proxies = [\"" == a && "\"]\n" == "\"]" + "\n";
    var body := "proxies" + (EQUALS + (("[" + ("\"" + (url + "\"]"))) + ("\n" + rest)));
    assert (a + url + ("\"]" + "\n")) + rest == a + (url + ("\"]" + ("\n" + rest)));
    assert a + (url + ("\"]" + ("\n" + rest))) == body;
    SectionIs("\n[network]\n", "network", a + url + "\"]\n", rest);
  }

  lemma SectionIs(header: string, name: string, lines: string, rest: string)
    requires header == "\n" + ("[" + (name + "]\n"))
    ensures (header + lines) + rest == "\n" + ("[" + (name + ("]\n" + (lines + rest))))
  {
    assert (header + lines) + rest == header + (lines + rest);
  }

  function Measured(metricsPort: int, m: Settings): Settings {
    m[("stats.prometheus", "enabled") := Flag(true)]
     [("stats.prometheus", "bind-to") := Text("127.0.0.1:" + Itoa(metricsPort))]
     [("stats.prometheus", "http-path") := Text("/metrics")]
     [("stats.prometheus", "metric-prefix") := Text("mtg")]
  }

  lemma StatsReads(metricsPort: int, section: string, m: Settings)
    requires NothingIn(m, "stats.prometheus")
    ensures ReadFile(StatsText(metricsPort), section, m) == Some(Measured(metricsPort, m))
  {
    hide ReadFile;
    var name, address := "stats.prometheus", "127.0.0.1:" + Itoa(metricsPort);
    var prefix := "metric-prefix" + (EQUALS + ("\"" + ("mtg" + ("\"" + ("\n" + "")))));
    var path := "http-path" + (EQUALS + ("\"" + ("/metrics" + ("\"" + ("\n" + prefix)))));
    var bind := "bind-to" + (EQUALS + ("\"" + (address + ("\"" + ("\n" + path)))));
    var enabled := "enabled" + (EQUALS + ("true" + ("\n" + bind)));
    StatsIs(address);
    UrlIsPlain(metricsPort);
    hide Itoa;
    BlankLine("[" + (name + ("]\n" + enabled)), section, m);
    HeaderReads(name, enabled, section, m);
    var m1 := m[(name, "enabled") := Flag(true)];
    var m2 := m1[(name, "bind-to") := Text(address)];
    var m3 := m2[(name, "http-path") := Text("/metrics")];
    FlagLine("enabled", bind, name, m);
    PlainLine("bind-to", address, path, name, m1);
    PlainLine("http-path", "/metrics", prefix, name, m2);
    PlainLine("metric-prefix", "mtg", "", name, m3);
    NothingLeft(name, m3[(name, "metric-prefix") := Text("mtg")]);
  }

  lemma NothingLeft(section: string, m: Settings)
    ensures ReadFile("", section, m) == Some(m)
  {
  }

  lemma PlainLineIs(key: string, t: string, rest: string)
    ensures ((key + " = \"") + t + "\"\n") + rest == key + (EQUALS + ("\"" + (t + ("\"" + ("\n" + rest)))))
  {
    assert " = \"" == EQUALS + "\"" && "\"\n" == "\"" + "\n";
    assert ((key + (EQUALS + "\"")) + t + ("\"" + "\n")) + rest == key + (EQUALS + ("\"" + (t + ("\"" + ("\n" + rest)))));
  }

  lemma StatsIs(address: string)
    ensures "\n[stats.prometheus]\n"
            + ("enabled = true\n" + ("bind-to = \"" + address + "\"\n") + "http-path = \"/metrics\"\n" + "metric-prefix = \"mtg\"\n")
            == (var prefix := "metric-prefix" + (EQUALS + ("\"" + ("mtg" + ("\"" + ("\n" + "")))));
                var path := "http-path" + (EQUALS + ("\"" + ("/metrics" + ("\"" + ("\n" + prefix)))));
                var bind := "bind-to" + (EQUALS + ("\"" + (address + ("\"" + ("\n" + path)))));
                "\n" + ("[" + ("stats.prometheus" + ("]\n" + ("enabled" + (EQUALS + ("true" + ("\n" + bind))))))))
  {
    var prefix := "metric-prefix" + (EQUALS + ("\"" + ("mtg" + ("\"" + ("\n" + "")))));
    var path := "http-path" + (EQUALS + ("\"" + ("/metrics" + ("\"" + ("\n" + prefix)))));
    var bind := "bind-to" + (EQUALS + ("\"" + (address + ("\"" + ("\n" + path)))));
    StatsLiterals();
    var e, b, h, p := "enabled = true\n", "bind-to = \"" + address + "\"\n", "http-path = \"/metrics\"\n", "metric-prefix = \"mtg\"\n";
    PlainLineIs("metric-prefix", "mtg", "");
    assert p + "" == prefix && p == prefix;
    PlainLineIs("http-path", "/metrics", prefix);
    assert h + p == path;
    PlainLineIs("bind-to", address, path);
    assert b + path == bind;
    FlagLines();
    FlagText("enabled", bind);
    assert e + bind == "enabled" + (EQUALS + ("true" + ("\n" + bind)));
    assert e + b + h + p == e + (b + (h + p));
    SectionIs("\n[stats.prometheus]\n", "stats.prometheus", e + bind, "");
    assert (e + bind) + "" == e + bind;
    assert ("\n[stats.prometheus]\n" + (e + bind)) + "" == "\n[stats.prometheus]\n" + (e + bind);
  }

  lemma StatsLiterals()
    ensures "\n[stats.prometheus]\n" == "\n" + ("[" + ("stats.prometheus" + "]\n"))
    ensures "bind-to = \"" == "bind-to" + " = \""
    ensures "http-path = \"/metrics\"\n" == ("http-path" + " = \"") + "/metrics" + "\"\n"
    ensures "metric-prefix = \"mtg\"\n" == ("metric-prefix" + " = \"") + "mtg" + "\"\n"
  {
  }

  // ---------------------------------------------------------------- main results

  /**
  The file of an instance says exactly what the instance asks for, section by section and key by key:
  every setting that is not at its zero value, the proxy exactly if the instance is routed through
  Xray on a port, and the metrics address. Nothing else is in it.
  */
  lemma FileSaysExactly(quote: string -> string, inst: Instance, metricsPort: int) returns (m: Settings)
    requires Quotes(quote)
    ensures ReadFile(RenderConfig(quote, inst, metricsPort), "", map[]) == Some(m)
    ensures forall section, key :: Find(m, section, key) == Wanted(inst, metricsPort, section, key)
  {
    hide Quotes, ReadFile, HeadText, PreferText, FrontingText, RoutingText, StatsText, NothingIn, Preferred, Fronted,
      Routed, Measured;
    var h, p := HeadText(quote, BindTo(inst), inst.secret), PreferText(quote, inst.debug, inst.proxyProtocolListener, inst.preferIp);
    var f := FrontingText(quote, inst.frontingIp, inst.frontingPort, inst.frontingProxyProtocol);
    var r, t := RoutingText(inst.routeThroughXray, inst.xrayRoutePort), StatsText(metricsPort);
    Regrouped5(h, p, f, r, t);
    var m0, m1, m2, m3;
    m0, m1, m2, m3, m := Stages(inst, metricsPort);
    HeadReads(quote, inst, p + (f + (r + t)));
    PreferReads(quote, inst, f + (r + t), m0);
    var section := FrontingReads(quote, inst, r + t, m1);
    var section' := RoutingReads(inst, t, section, m2);
    StatsReads(metricsPort, section', m3);
    forall section, key ensures Find(m, section, key) == Wanted(inst, metricsPort, section, key) {
      FoundExactly(inst, metricsPort, section, key);
    }
  }

  lemma Regrouped5(h: string, p: string, f: string, r: string, t: string)
    ensures h + p + f + r + t == h + (p + (f + (r + t)))
  {
  }

  function HeadSettings(inst: Instance): Settings {
    map[("", "secret") := Text(inst.secret), ("", "bind-to") := Text(BindTo(inst))]
  }

  /** The settings read after each part of the file. */
  lemma Stages(inst: Instance, metricsPort: int)
    returns (m0: Settings, m1: Settings, m2: Settings, m3: Settings, m: Settings)
    ensures m0 == HeadSettings(inst) && m0.Keys == {("", "secret"), ("", "bind-to")}
    ensures m1 == Preferred(inst, m0) && NothingIn(m1, "domain-fronting")
    ensures m2 == Fronted(inst, m1) && NothingIn(m2, "network")
    ensures m3 == Routed(inst, m2) && NothingIn(m3, "stats.prometheus")
    ensures m == Measured(metricsPort, m3)
    ensures m == Measured(metricsPort, Routed(inst, Fronted(inst, Preferred(inst, HeadSettings(inst)))))
  {
    hide Itoa, BindTo;
    m0 := HeadSettings(inst);
    m1 := Preferred(inst, m0);
    m2 := Fronted(inst, m1);
    m3 := Routed(inst, m2);
    m := Measured(metricsPort, m3);
    assert "" != "domain-fronting" && "" != "network" && "" != "stats.prometheus";
    assert "domain-fronting" != "network" && "domain-fronting" != "stats.prometheus" && "network" != "stats.prometheus" by {
      assert "domain-fronting"[0] == 'd' && "network"[0] == 'n' && "stats.prometheus"[0] == 's';
    }
  }

  lemma FindWith(m: Settings, section: string, key: string, v: Option<Setting>, s: string, k: string)
    ensures Find(With(m, section, key, v), s, k) == if v.Some? && s == section && k == key then v else Find(m, s, k)
  {
  }

  /** One step back: the setting of this key, or what was there before. */
  function Or(c: bool, v: Setting, otherwise: Option<Setting>): Option<Setting> { if c then Some(v) else otherwise }

  lemma PreferredFinds(inst: Instance, m: Settings, s: string, k: string)
    ensures Find(Preferred(inst, m), s, k)
            == Or(s == "" && k == "prefer-ip" && inst.preferIp != "", Text(inst.preferIp),
               Or(s == "" && k == "proxy-protocol-listener" && inst.proxyProtocolListener, Flag(true),
               Or(s == "" && k == "debug" && inst.debug, Flag(true), Find(m, s, k))))
  {
    hide With, Find;
    var m1 := With(m, "", "debug", If(inst.debug, Flag(true)));
    var m2 := With(m1, "", "proxy-protocol-listener", If(inst.proxyProtocolListener, Flag(true)));
    FindWith(m, "", "debug", If(inst.debug, Flag(true)), s, k);
    FindWith(m1, "", "proxy-protocol-listener", If(inst.proxyProtocolListener, Flag(true)), s, k);
    FindWith(m2, "", "prefer-ip", If(inst.preferIp != "", Text(inst.preferIp)), s, k);
  }

  lemma FrontedFinds(inst: Instance, m: Settings, s: string, k: string)
    ensures var f := "domain-fronting";
            Find(Fronted(inst, m), s, k)
            == Or(s == f && k == "proxy-protocol" && inst.frontingProxyProtocol, Flag(true),
               Or(s == f && k == "port" && inst.frontingPort > 0, Number(inst.frontingPort),
               Or(s == f && k == "ip" && inst.frontingIp != "", Text(inst.frontingIp), Find(m, s, k))))
  {
    hide With, Find;
    var f := "domain-fronting";
    var m1 := With(m, f, "ip", If(inst.frontingIp != "", Text(inst.frontingIp)));
    var m2 := With(m1, f, "port", If(inst.frontingPort > 0, Number(inst.frontingPort)));
    FindWith(m, f, "ip", If(inst.frontingIp != "", Text(inst.frontingIp)), s, k);
    FindWith(m1, f, "port", If(inst.frontingPort > 0, Number(inst.frontingPort)), s, k);
    FindWith(m2, f, "proxy-protocol", If(inst.frontingProxyProtocol, Flag(true)), s, k);
  }

  lemma MeasuredFinds(metricsPort: int, m: Settings, s: string, k: string)
    ensures var t := "stats.prometheus";
            Find(Measured(metricsPort, m), s, k)
            == Or(s == t && k == "metric-prefix", Text("mtg"),
               Or(s == t && k == "http-path", Text("/metrics"),
               Or(s == t && k == "bind-to", Text("127.0.0.1:" + Itoa(metricsPort)),
               Or(s == t && k == "enabled", Flag(true), Find(m, s, k)))))
  {
    hide With, Find, Itoa;
    var t, address := "stats.prometheus", "127.0.0.1:" + Itoa(metricsPort);
    var m1 := With(m, t, "enabled", Some(Flag(true)));
    var m2 := With(m1, t, "bind-to", Some(Text(address)));
    var m3 := With(m2, t, "http-path", Some(Text("/metrics")));
    FindWith(m, t, "enabled", Some(Flag(true)), s, k);
    FindWith(m1, t, "bind-to", Some(Text(address)), s, k);
    FindWith(m2, t, "http-path", Some(Text("/metrics")), s, k);
    FindWith(m3, t, "metric-prefix", Some(Text("mtg")), s, k);
    MeasuredSteps(metricsPort, m);
  }

  lemma MeasuredSteps(metricsPort: int, m: Settings)
    ensures var t := "stats.prometheus";
            Measured(metricsPort, m)
            == With(With(With(With(m, t, "enabled", Some(Flag(true))), t, "bind-to", Some(Text("127.0.0.1:" + Itoa(metricsPort)))),
                         t, "http-path", Some(Text("/metrics"))), t, "metric-prefix", Some(Text("mtg")))
  {
    hide Itoa;
  }

  lemma HeadFinds(inst: Instance, s: string, k: string)
    ensures Find(HeadSettings(inst), s, k)
            == Or(s == "" && k == "secret", Text(inst.secret), Or(s == "" && k == "bind-to", Text(BindTo(inst)), None))
  {
    hide BindTo;
  }

  lemma FoundExactly(inst: Instance, metricsPort: int, s: string, k: string)
    ensures Find(Measured(metricsPort, Routed(inst, Fronted(inst, Preferred(inst, HeadSettings(inst))))), s, k)
            == Wanted(inst, metricsPort, s, k)
  {
    hide Itoa, Find, With, HeadSettings, Preferred, Fronted, Measured;
    var m0 := HeadSettings(inst);
    var m1 := Preferred(inst, m0);
    var m2 := Fronted(inst, m1);
    var m3 := Routed(inst, m2);
    var url := Texts(["socks5://127.0.0.1:" + Itoa(inst.xrayRoutePort)]);
    HeadFinds(inst, s, k);
    PreferredFinds(inst, m0, s, k);
    FrontedFinds(inst, m1, s, k);
    FindWith(m2, "network", "proxies", If(inst.routeThroughXray && inst.xrayRoutePort > 0, url), s, k);
    MeasuredFinds(metricsPort, m3, s, k);
    SectionsDiffer();
  }

  lemma SectionsDiffer()
    ensures "" != "domain-fronting" && "" != "network" && "" != "stats.prometheus"
    ensures "domain-fronting" != "network" && "domain-fronting" != "stats.prometheus" && "network" != "stats.prometheus"
  {
    assert "domain-fronting"[0] == 'd' && "network"[0] == 'n' && "stats.prometheus"[0] == 's';
  }

  /**
  After any run that ends in a reconciliation, every managed desired instance whose fingerprint can be
  read in one way only runs with a file that says exactly what it asks for.
  */
  lemma ReconciledFileSaysExactly(quote: string -> string, rs: seq<Request>, i: nat) returns (m: Settings)
    requires Quotes(quote) && rs != [] && Requests(rs)
    requires var last := rs[|rs| - 1];
             last.Reconcile? && DistinctIds(last.desired) && i < |last.desired| && !Ambiguous(last.desired[i])
             && last.desired[i].id in Run(rs).slots
    ensures var slot, inst := Run(rs).slots[rs[|rs| - 1].desired[i].id], rs[|rs| - 1].desired[i];
            && slot.running && ReadFile(RenderConfig(quote, slot.source, slot.metricsPort), "", map[]) == Some(m)
            && forall section, key :: Find(m, section, key) == Wanted(inst, slot.metricsPort, section, key)
  {
    hide RenderConfig, ReadFile, Wanted, Find, Run, Ambiguous, Quotes;
    ReconciledRunsDesired(quote, rs, i);
    var inst := rs[|rs| - 1].desired[i];
    m := FileSaysExactly(quote, inst, Run(rs).slots[inst.id].metricsPort);
  }
}
