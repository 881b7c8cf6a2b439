/**
`parseTrojan` (internal/util/link/outbound.go:288-331) on the panel's own links. It takes a link
apart with Go's net/url, which decodes percent escapes in a host, refuses bytes no host may hold and
accepts in brackets only what parses as an IPv6 address; that test is a parameter here. A path
behind the host is not looked at.
*/
module LinkImport {
  import opened Text
  import opened Percent
  import opened ShareLink

  // ---------------------------------------------------------------- hosts as net/url reads them

  /** ASCII characters a host may hold as they are (section 3.2.2 of RFC 3986, and `<`, `>`, `"`). */
  predicate HostChar(c: char) {
    Unreserved(c) || c in "!$&'()*+,;=:[]<>\""
  }

  /**
  Of the ASCII characters all that can be seen may stand in a host, but for delimiters of a link and
  `\ ^ { | }` and the back quote.
  */
  lemma HostCharExactly(c: char)
    requires c as int < 0x80
    ensures HostChar(c) <==> c as int > 0x20 && c as int != 0x7F && c !in "#%/?@\\^`{|}"
  {
  }

  predicate HostByte(c: char) { c as int >= 0x80 || HostChar(c) }

  /** The byte an escape at the front of `s` stands for in a host: only bytes beyond ASCII and `%` may be escaped. */
  function HostEscape(s: string): (c: Option<char>)
    ensures c.Some? ==> |s| >= 3 && (c.value as int >= 0x80 || c.value == '%')
  {
    if |s| < 3 || HexValue(s[1]) < 0 || HexValue(s[2]) < 0 then None
    else if HexValue(s[1]) >= 8 then Some((16 * HexValue(s[1]) + HexValue(s[2])) as char)
    else if s[1] == '2' && s[2] == '5' then Some('%')
    else None
  }

  /** `unescape` in a host. */
  function UnescapeHost(s: string): Option<string>
    decreases |s|
  {
    if s == "" then Some("")
    else if s[0] == '%' then
      if HostEscape(s) == None then None else Prepend(HostEscape(s).value, UnescapeHost(s[3..]))
    else if !HostByte(s[0]) then None
    else Prepend(s[0], UnescapeHost(s[1..]))
  }

  /** `unescape` in the zone of an IPv6 address: a space may be escaped too, bytes beyond ASCII may not. */
  function UnescapeZone(s: string): Option<string>
    decreases |s|
  {
    if s == "" then Some("")
    else if s[0] == '%' then
      if |s| < 3 || HexValue(s[1]) < 0 || HexValue(s[2]) < 0 then None
      else
        var c := (16 * HexValue(s[1]) + HexValue(s[2])) as char;
        if s[..3] != "%25" && c != ' ' && !HostChar(c) then None else Prepend(c, UnescapeZone(s[3..]))
    else if !HostByte(s[0]) then None
    else Prepend(s[0], UnescapeZone(s[1..]))
  }

  function Prepend(c: char, rest: Option<string>): Option<string> {
    match rest case None => None case Some(t) => Some([c] + t)
  }

  /** Where `%25` starts, or the length of `s`. */
  function ZoneAt(s: string): (i: nat)
    ensures i <= |s| && (i < |s| ==> s[i] == '%')
  {
    if s == "" || "%25" <= s then 0 else 1 + ZoneAt(s[1..])
  }

  function UnescapeLiteral(s: string): Option<string> {
    match (UnescapeHost(s[..ZoneAt(s)]), UnescapeZone(s[ZoneAt(s)..]))
    case (Some(address), Some(zone)) => Some(address + zone)
    case _ => None
  }

  /** `validOptionalPort`. */
  predicate OptionalPort(s: string) { s == "" || (s[0] == ':' && AllDigits(s[1..])) }

  /** What stands in brackets must be an IPv6 address. */
  function UrlLiteral(name: string, port: string, isIPv6: string -> bool): Option<string> {
    if !OptionalPort(port) || UnescapeLiteral(name) == None || !isIPv6(UnescapeLiteral(name).value) then None
    else Some("[" + UnescapeLiteral(name).value + "]" + port)
  }

  /** `parseHost`, the result in the form of `URL.Host`. */
  function UrlHost(host: string, isIPv6: string -> bool): Option<string> {
    var open := LastIndexOf(host, '[');
    if open > 0 then None
    else if open == 0 then
      var close := LastIndexOf(host, ']');
      if close < 1 then None else UrlLiteral(host[1..close], host[close + 1..], isIPv6)
    else
      var colon := LastIndexOf(host, ':');
      if colon >= 0 && !OptionalPort(host[colon..]) then None else UnescapeHost(host)
  }

  /** `URL.Hostname` and `URL.Port`. */
  function SplitHostPort(host: string): (string, string) {
    var colon := LastIndexOf(host, ':');
    var (name, port) :=
      if colon >= 0 && OptionalPort(host[colon..]) then (host[..colon], host[colon + 1..]) else (host, "");
    (if |name| >= 2 && name[0] == '[' && name[|name| - 1] == ']' then name[1..|name| - 1] else name, port)
  }

  // ---------------------------------------------------------------- the importer

  const MAX_INT := 0x7FFF_FFFF_FFFF_FFFF

  /** `defaultPort(p, 443)`; numbers that do not fit an int are no numbers. */
  function DefaultPort(p: string): int {
    if p == "" || !AllDigits(p) || DigitsValue(p) <= 0 || DigitsValue(p) > MAX_INT then 443 else DigitsValue(p)
  }

  /** `decodeHash`, applied to a fragment that is already decoded. */
  function DecodeHash(fragment: string): string {
    if fragment == "" then "" else Unescape(fragment, true).GetOr(fragment)
  }

  /** A control character, which no URL may hold. */
  predicate IsControl(c: char) { c < ' ' || c as int == 0x7F }

  /** Password, address, port and tag that `parseTrojan` makes of a link. */
  function ImportTrojan(link: string, isIPv6: string -> bool): Option<(string, string, int, string)> {
    var body := Before(link, '#');
    var head := Before(body, '?');
    if !(SCHEME <= head) || exists c :: c in body && IsControl(c) then None
    else
      var authority := Before(head[|SCHEME|..], '/');
      var at := LastIndexOf(authority, '@');
      match (Unescape(if at < 0 then "" else authority[..at], false), UrlHost(authority[at + 1..], isIPv6),
             Unescape(After(link, '#'), false))
      case (Some(password), Some(host), Some(fragment)) =>
        var (name, port) := SplitHostPort(host);
        Some((password, name, DefaultPort(port), DecodeHash(fragment)))
      case _ => None
  }

  // ---------------------------------------------------------------- decoding a host

  /** Hosts net/url gives back as they were printed. */
  predicate HostStays(h: string, isIPv6: string -> bool) {
    && (forall c :: c in h ==> HostByte(c))
    && '[' !in h
    && (':' in h ==> isIPv6(h))
  }

  lemma {:induction false} UnescapeHostExactly(s: string)
    ensures UnescapeHost(s) == Some(s) <==> forall c :: c in s ==> HostByte(c)
    ensures UnescapeHost(s).Some? ==> |UnescapeHost(s).value| <= |s| && ('%' in s ==> |UnescapeHost(s).value| < |s|)
    ensures UnescapeHost(s).Some? ==> forall c :: c in UnescapeHost(s).value ==> HostByte(c) || c == '%'
    decreases |s|
  {
    hide HostEscape;
    if s != "" {
      assert s == [s[0]] + s[1..];
      if s[0] == '%' {
        assert !HostByte('%');
        if HostEscape(s).Some? {
          UnescapeHostExactly(s[3..]);
        }
      } else {
        UnescapeHostExactly(s[1..]);
      }
    }
  }

  lemma {:induction false} UnescapeZoneFits(s: string)
    ensures UnescapeZone(s).Some? ==> |UnescapeZone(s).value| <= |s| && ('%' in s ==> |UnescapeZone(s).value| < |s|)
    ensures UnescapeZone(s).Some? ==> forall c :: c in UnescapeZone(s).value ==> HostByte(c) || c == '%' || c == ' '
    decreases |s|
  {
    if s != "" {
      assert s == [s[0]] + s[1..];
      if s[0] == '%' {
        if UnescapeZone(s).Some? {
          UnescapeZoneFits(s[3..]);
          if s[..3] == "%25" {
            assert s[..3][1] == '2' && s[..3][2] == '5';
          }
        }
      } else {
        UnescapeZoneFits(s[1..]);
      }
    }
  }

  lemma UnescapeLiteralExactly(s: string)
    ensures UnescapeLiteral(s) == Some(s) <==> forall c :: c in s ==> HostByte(c)
    ensures UnescapeLiteral(s).Some? ==> forall c :: c in UnescapeLiteral(s).value ==> HostByte(c) || c == '%' || c == ' '
  {
    hide UnescapeHost, UnescapeZone, HexValue;
    var i := ZoneAt(s);
    UnescapeHostExactly(s[..i]);
    UnescapeZoneFits(s[i..]);
    assert s == s[..i] + s[i..];
    assert !HostByte('%');
    EmptyZone();
    if '%' !in s {
      assert forall j :: 0 <= j < |s| ==> s[j] in s;
      assert s[..i] == s && s[i..] == "";
    }
  }

  lemma EmptyZone()
    ensures UnescapeZone("") == Some("")
  {
  }

  function WithPort(host: Option<string>, digits: string): Option<string> {
    match host case None => None case Some(v) => Some(v + ":" + digits)
  }

  lemma PrependPort(c: char, rest: Option<string>, digits: string)
    ensures Prepend(c, WithPort(rest, digits)) == WithPort(Prepend(c, rest), digits)
  {
    if rest.Some? {
      assert [c] + (rest.value + ":" + digits) == ([c] + rest.value) + ":" + digits;
    }
  }

  /** A port behind a host is no part of an escape. */
  lemma EscapeBeforePort(h: string, digits: string)
    requires h != "" && h[0] == '%'
    ensures HostEscape(h + ":" + digits) == HostEscape(h)
    ensures |h| >= 3 ==> (h + ":" + digits)[3..] == h[3..] + ":" + digits
  {
    var s := h + ":" + digits;
    if |h| >= 3 {
      assert s[1] == h[1] && s[2] == h[2];
    } else {
      assert s[|h|] == ':' && HexValue(':') < 0;
    }
  }

  lemma {:induction false} UnescapeHostPort(h: string, digits: string)
    requires AllDigits(digits)
    ensures UnescapeHost(h + ":" + digits) == WithPort(UnescapeHost(h), digits)
    decreases |h|
  {
    hide HostEscape, WithPort, Prepend;
    var s := h + ":" + digits;
    if h == "" {
      PortStays(digits);
      assert s == [':'] + digits;
    } else if h[0] == '%' {
      EscapeBeforePort(h, digits);
      if HostEscape(h).Some? {
        UnescapeHostPort(h[3..], digits);
        PrependPort(HostEscape(h).value, UnescapeHost(h[3..]), digits);
      } else {
        NothingWithPort(digits);
      }
    } else if HostByte(h[0]) {
      assert s[1..] == h[1..] + ":" + digits;
      UnescapeHostPort(h[1..], digits);
      PrependPort(h[0], UnescapeHost(h[1..]), digits);
    } else {
      NothingWithPort(digits);
    }
  }

  lemma PortStays(digits: string)
    requires AllDigits(digits)
    ensures UnescapeHost([':'] + digits) == WithPort(Some(""), digits) == WithPort(UnescapeHost(""), digits)
  {
    UnescapeHostExactly([':'] + digits);
    assert "" + ":" + digits == [':'] + digits;
  }

  lemma NothingWithPort(digits: string)
    ensures WithPort(None, digits) == None
  {
  }

  // ---------------------------------------------------------------- the authority of a printed link

  /** What the importer makes of a printed host and port. */
  function Imported(h: string, port: int, isIPv6: string -> bool): Option<string> {
    if port < 0 then None
    else if ':' !in h then if '[' in h then None else UnescapeHost(h)
    else if '[' in h || UnescapeLiteral(h).None? || !isIPv6(UnescapeLiteral(h).value) then None
    else UnescapeLiteral(h)
  }

  lemma HostPortImports(host: string, port: int, isIPv6: string -> bool)
    ensures var u, h := UrlHost(JoinHostPort(host, port), isIPv6), TrimBrackets(host);
            && (u.Some? <==> Imported(h, port, isIPv6).Some?)
            && (u.Some? ==> SplitHostPort(u.value) == (Imported(h, port, isIPv6).value, Itoa(port)))
  {
    hide TrimLeft, TrimRight, Itoa;
    var h := TrimBrackets(host);
    TrimmedStart(host);
    TrimmedEnds(TrimLeft(host));
    if ':' in h {
      LiteralImports(h, port, isIPv6);
    } else {
      NameImports(h, port, isIPv6);
    }
  }

  lemma NameImports(h: string, port: int, isIPv6: string -> bool)
    requires ':' !in h && (h != "" ==> !IsBracket(h[0]))
    ensures var u := UrlHost(h + ":" + Itoa(port), isIPv6);
            && (u.Some? <==> Imported(h, port, isIPv6).Some?)
            && (u.Some? ==> SplitHostPort(u.value) == (Imported(h, port, isIPv6).value, Itoa(port)))
  {
    var digits := Itoa(port);
    var s := h + ":" + digits;
    NoColonInItoa(port);
    LastIndexOfSuffix(h, ':', digits);
    assert s == h + [':'] + digits && s[|h|..] == [':'] + digits && ([':'] + digits)[1..] == digits;
    BracketInHost(h, digits);
    if port >= 0 && '[' !in h {
      UnescapeHostPort(h, digits);
      UnescapeHostExactly(h);
      if UnescapeHost(h).Some? {
        var v := UnescapeHost(h).value;
        NameSplits(h, v, digits);
      }
    }
  }

  lemma BracketInHost(h: string, digits: string)
    requires forall c :: c in digits ==> c != '['
    requires h != "" ==> h[0] != '['
    ensures var open := LastIndexOf(h + ":" + digits, '['); if '[' in h then open > 0 else open == -1
  {
    hide LastIndexOf;
    var s := h + ":" + digits;
    if '[' in h {
      var i :| 0 <= i < |h| && h[i] == '[';
      assert s[i] == '[' && i > 0;
    } else {
      assert '[' !in s;
      LastIndexAbsent(s, '[');
    }
  }

  lemma NameSplits(h: string, v: string, digits: string)
    requires UnescapeHost(h) == Some(v) && AllDigits(digits) && (h != "" ==> h[0] != '[')
    ensures SplitHostPort(v + ":" + digits) == (v, digits)
  {
    hide LastIndexOf, UnescapeHost;
    assert ':' !in digits;
    LastIndexOfSuffix(v, ':', digits);
    var s := v + ":" + digits;
    assert s == v + [':'] + digits && s[|v|..] == [':'] + digits && ([':'] + digits)[1..] == digits;
    FirstStays(h);
  }

  /** Decoding a host never produces a bracket at its front. */
  lemma FirstStays(h: string)
    requires UnescapeHost(h).Some? && (h != "" ==> h[0] != '[')
    ensures UnescapeHost(h).value != "" ==> UnescapeHost(h).value[0] != '['
  {
  }

  lemma LiteralImports(h: string, port: int, isIPv6: string -> bool)
    requires ':' in h
    ensures var u := UrlHost("[" + h + "]:" + Itoa(port), isIPv6);
            && (u.Some? <==> Imported(h, port, isIPv6).Some?)
            && (u.Some? ==> SplitHostPort(u.value) == (Imported(h, port, isIPv6).value, Itoa(port)))
  {
    hide UnescapeLiteral, LastIndexOf, Itoa, UnescapeHost, UrlLiteral, SplitHostPort;
    var digits := Itoa(port);
    var s := "[" + h + "]:" + digits;
    NoColonInItoa(port);
    LiteralBrackets(h, digits);
    assert s[1..|h| + 1] == h && s[|h| + 2..] == [':'] + digits;
    if '[' !in h {
      LiteralWithPort(h, port, isIPv6);
    }
  }

  lemma LiteralWithPort(h: string, port: int, isIPv6: string -> bool)
    requires ':' in h && '[' !in h
    ensures var u := UrlLiteral(h, [':'] + Itoa(port), isIPv6);
            && (u.Some? <==> Imported(h, port, isIPv6).Some?)
            && (u.Some? ==> SplitHostPort(u.value) == (Imported(h, port, isIPv6).value, Itoa(port)))
  {
    hide UnescapeLiteral, LastIndexOf, Itoa, UnescapeHost, SplitHostPort;
    var digits := Itoa(port);
    NoColonInItoa(port);
    assert ([':'] + digits)[1..] == digits;
    if Imported(h, port, isIPv6).Some? {
      LiteralSplits(UnescapeLiteral(h).value, digits);
    }
  }

  lemma LiteralSplits(v: string, digits: string)
    requires AllDigits(digits)
    ensures SplitHostPort("[" + v + "]" + ([':'] + digits)) == (v, digits)
  {
    hide LastIndexOf;
    var name := "[" + v + "]";
    var t := name + [':'] + digits;
    assert ':' !in digits;
    LastIndexOfSuffix(name, ':', digits);
    assert name + ([':'] + digits) == t;
    assert t[|name|..] == [':'] + digits && ([':'] + digits)[1..] == digits;
    assert name[1..|v| + 1] == v;
  }

  lemma LiteralBrackets(h: string, digits: string)
    requires forall c :: c in digits ==> c == '-' || IsDigit(c)
    ensures var s := "[" + h + "]:" + digits;
            LastIndexOf(s, ']') == |h| + 1 && (if '[' in h then LastIndexOf(s, '[') > 0 else LastIndexOf(s, '[') == 0)
  {
    hide LastIndexOf;
    var s := "[" + h + "]:" + digits;
    assert ']' !in ":" + digits;
    assert s == ("[" + h) + [']'] + (":" + digits);
    LastIndexOfSuffix("[" + h, ']', ":" + digits);
    if '[' in h {
      var i :| 0 <= i < |h| && h[i] == '[';
      assert s[i + 1] == '[';
    } else {
      var rest := h + "]:" + digits;
      assert '[' !in rest && s[0] == '[';
      assert forall j :: 0 < j < |s| ==> s[j] == rest[j - 1];
      LastIndexIs(s, '[', 0);
    }
  }

  // ---------------------------------------------------------------- main result

  lemma ImportedExactly(h: string, port: int, isIPv6: string -> bool)
    ensures Imported(h, port, isIPv6) == Some(h) <==> HostStays(h, isIPv6) && port >= 0
  {
    hide UnescapeHost, UnescapeLiteral;
    UnescapeHostExactly(h);
    UnescapeLiteralExactly(h);
  }

  /** No imported host holds a delimiter. */
  lemma ImportedHostUndelimited(link: string, isIPv6: string -> bool)
    requires ImportTrojan(link, isIPv6).Some?
    ensures Undelimited(ImportTrojan(link, isIPv6).value.1)
  {
    hide LastIndexOf, Before, After, Unescape, UrlHost, SplitHostPort, DefaultPort, DecodeHash, Undelimited, IsControl;
    var authority := Before(Before(Before(link, '#'), '?')[|SCHEME|..], '/');
    var at := LastIndexOf(authority, '@');
    HostnameFits(authority[at + 1..], isIPv6);
  }

  lemma HostnameFits(host: string, isIPv6: string -> bool)
    requires UrlHost(host, isIPv6).Some?
    ensures Undelimited(SplitHostPort(UrlHost(host, isIPv6).value).0)
  {
    hide UrlHost, SplitHostPort;
    UrlHostFits(host, isIPv6);
    SplitPart(UrlHost(host, isIPv6).value);
  }

  lemma SplitPart(host: string)
    ensures forall c :: c in SplitHostPort(host).0 ==> c in host
  {
    hide LastIndexOf;
  }

  lemma UrlHostFits(host: string, isIPv6: string -> bool)
    requires UrlHost(host, isIPv6).Some?
    ensures forall c :: c in UrlHost(host, isIPv6).value ==> HostByte(c) || c == '%' || c == ' '
  {
    hide UnescapeHost, UnescapeLiteral, LastIndexOf;
    var open := LastIndexOf(host, '[');
    if open == 0 {
      var close := LastIndexOf(host, ']');
      UnescapeLiteralExactly(host[1..close]);
    } else {
      UnescapeHostExactly(host);
    }
  }

  lemma PortReadsBack(port: int)
    requires port >= 0
    ensures DefaultPort(Itoa(port)) == port <==> 0 < port <= MAX_INT
  {
    DigitsReadBack(port);
    assert port == 443 ==> 0 < port <= MAX_INT;
  }

  /** The part of a printed link before its fragment. */
  lemma NoControls(password: string, host: string, port: int, params: Params, isIPv6: string -> bool)
    requires ByteText(password) && ByteParams(params) && HostStays(TrimBrackets(host), isIPv6)
    ensures forall c :: c in WithQuery(TrojanLink(password, host, port), params) ==> !IsControl(c)
  {
    hide EncodeUserinfo, EncodeQuery, JoinHostPort;
    var user, hostPort, query := EncodeUserinfo(password), JoinHostPort(host, port), EncodeQuery(params);
    UserinfoReadsBack(password);
    QueryIsPlain(params);
    assert forall c :: c in user ==> !IsControl(c);
    assert forall c :: c in query ==> !IsControl(c);
    AuthorityControls(host, port, isIPv6);
    SchemeControls();
    hide IsControl, TrimBrackets, HostStays, PairChar, Plain;
    assert forall c :: c in TrojanLink(password, host, port) ==> c in SCHEME || c in user || c in "@" || c in hostPort;
  }

  lemma SchemeControls()
    ensures forall c :: c in SCHEME || c in "@" || c in "?" || c in "&" ==> !IsControl(c)
  {
  }

  lemma AuthorityControls(host: string, port: int, isIPv6: string -> bool)
    requires HostStays(TrimBrackets(host), isIPv6)
    ensures forall c :: c in JoinHostPort(host, port) ==> !IsControl(c)
  {
    hide TrimBrackets, Itoa;
    var h, digits := TrimBrackets(host), Itoa(port);
    assert forall c :: c in digits ==> c == '-' || IsDigit(c) by {
      assert forall i :: 0 < i < |digits| ==> digits[i] == digits[1..][i - 1];
    }
    assert forall c :: c in h ==> HostByte(c) && !IsControl(c);
    assert forall c :: c in JoinHostPort(host, port) ==> c in h || IsBracket(c) || c == ':' || c in digits;
  }

  /**
  The panel's importer gives one of the panel's own links back, password, address, port and remark,
  if and only if the host holds only bytes net/url takes as they are, no opening bracket and no colon
  unless it is an IPv6 address; the port is positive; and the remark, which is decoded twice, holds
  neither `+` nor `%`, or a `%` that starts no escape.
  */
  lemma ImportGivesBack(password: string, host: string, port: int, params: Params, remark: string, isIPv6: string -> bool)
    requires ByteText(password) && ByteParams(params) && ByteText(remark)
    ensures ImportTrojan(FullLink(password, host, port, params, remark), isIPv6) ==
            Some((password, TrimBrackets(host), port, remark))
            <==> && HostStays(TrimBrackets(host), isIPv6) && 0 < port <= MAX_INT
                 && (('+' !in remark && '%' !in remark) || Unescape(remark, true).None?)
  {
    hide FullLink, TrimBrackets, ImportTrojan, Unescape, HostStays;
    var link, h := FullLink(password, host, port, params, remark), TrimBrackets(host);
    if Undelimited(h) {
      PlainHostImports(password, host, port, params, remark, isIPv6);
      ImportedExactly(h, port, isIPv6);
      UnescapeStays(remark);
      if port >= 0 { PortReadsBack(port); }
    } else {
      DelimitedNeverStays(h, isIPv6);
      if ImportTrojan(link, isIPv6).Some? {
        ImportedHostUndelimited(link, isIPv6);
      }
    }
  }

  lemma DelimitedNeverStays(h: string, isIPv6: string -> bool)
    ensures HostStays(h, isIPv6) ==> Undelimited(h)
  {
  }

  lemma PlainHostImports(password: string, host: string, port: int, params: Params, remark: string, isIPv6: string -> bool)
    requires ByteText(password) && ByteParams(params) && ByteText(remark) && Undelimited(TrimBrackets(host))
    ensures var h := TrimBrackets(host);
            var result := ImportTrojan(FullLink(password, host, port, params, remark), isIPv6);
            && (HostStays(h, isIPv6) && port >= 0 ==> result == Some((password, h, DefaultPort(Itoa(port)), DecodeHash(remark))))
            && (result.Some? ==> Imported(h, port, isIPv6) == Some(result.value.1)
                                 && result.value == (password, result.value.1, DefaultPort(Itoa(port)), DecodeHash(remark)))
  {
    hide EncodeUserinfo, JoinHostPort, TrimBrackets, Unescape, WithQuery, WithFragment, Before, After, UrlHost,
      SplitHostPort, Imported, HostStays, DefaultPort, DecodeHash, LastIndexOf;
    LinkSplits(password, host, port, params, remark);
    HostPortImports(host, port, isIPv6);
    ImportedExactly(TrimBrackets(host), port, isIPv6);
    if HostStays(TrimBrackets(host), isIPv6) {
      NoControls(password, host, port, params, isIPv6);
    }
  }

  /** A link whose port is 0 or no machine integer comes back with port 443, unless its host is refused. */
  lemma OtherPortsBecome443(password: string, host: string, port: nat, params: Params, remark: string, isIPv6: string -> bool)
    requires ByteText(password) && ByteParams(params) && ByteText(remark)
    requires HostStays(TrimBrackets(host), isIPv6) && (port == 0 || port > 0x7FFF_FFFF_FFFF_FFFF)
    ensures var result := ImportTrojan(FullLink(password, host, port, params, remark), isIPv6);
            result.Some? && result.value.0 == password && result.value.1 == TrimBrackets(host) && result.value.2 == 443
  {
    hide FullLink, DecodeHash, TrimBrackets, ImportTrojan, HostStays;
    DelimitedNeverStays(TrimBrackets(host), isIPv6);
    PlainHostImports(password, host, port, params, remark, isIPv6);
    DigitsReadBack(port);
  }
}
