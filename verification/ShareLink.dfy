/**
Share links (internal/sub/service.go:630-700, 1508-1560): `trojan://password@host:port?query#remark`.
The printer is the code's; the reader splits a link the way sections 3.2 to 3.5 of RFC 3986 say and
decodes the parts, which is what a client does with it. Strings are byte strings.
*/
module ShareLink {
  import opened Text
  import opened Percent

  // ---------------------------------------------------------------- the authority

  /** `strings.Trim(host, "[]")`. */
  function TrimBrackets(host: string): string { TrimRight(TrimLeft(host)) }

  predicate IsBracket(c: char) { c == '[' || c == ']' }

  function TrimLeft(s: string): string { if s != "" && IsBracket(s[0]) then TrimLeft(s[1..]) else s }

  function TrimRight(s: string): string {
    if s != "" && IsBracket(s[|s| - 1]) then TrimRight(s[..|s| - 1]) else s
  }

  /** `net.JoinHostPort`: a host with a colon goes in brackets. */
  function NetJoinHostPort(host: string, port: string): string {
    if ':' in host then "[" + host + "]:" + port else host + ":" + port
  }

  /** `joinHostPort`. */
  function JoinHostPort(host: string, port: int): string { NetJoinHostPort(TrimBrackets(host), Itoa(port)) }

  // ---------------------------------------------------------------- query and fragment

  type Params = map<string, string>

  predicate ByteParams(params: Params) {
    forall k :: k in params ==> ByteText(k) && ByteText(params[k])
  }

  const TLS_HINTS: set<string> := {"alpn", "sni", "fp", "pcs"}

  /** The parameters a link carries: `security` overridden, TLS hints left out on request. */
  function Effective(params: Params, securityOverride: string, omitTLSFields: bool): Params {
    map k | k in params && !(omitTLSFields && k in TLS_HINTS) ::
      if securityOverride != "" && k == "security" then securityOverride else params[k]
  }

  function Pair(k: string, v: string): string
    requires ByteText(k) && ByteText(v)
  {
    QueryEscape(k) + ['='] + QueryEscape(v)
  }

  function Pairs(keys: seq<string>, params: Params): seq<string>
    requires ByteParams(params) && forall k :: k in keys ==> k in params
  {
    if keys == [] then []
    else Pairs(keys[..|keys| - 1], params) + [Pair(keys[|keys| - 1], params[keys[|keys| - 1]])]
  }

  /** `url.Values.Encode`, keys sorted. */
  function EncodeQuery(params: Params): string
    requires ByteParams(params)
  {
    SortedOrders(params.Keys);
    Join(Pairs(Sorted(params.Keys), params), '&')
  }

  function WithQuery(link: string, params: Params): string
    requires ByteParams(params)
  {
    if EncodeQuery(params) == "" then link
    else link + (if '?' in link then "&" else "?") + EncodeQuery(params)
  }

  function WithFragment(link: string, fragment: string): string
    requires ByteText(fragment)
  {
    if fragment == "" then link else link + "#" + EncodeUserinfo(fragment)
  }

  /** `appendQueryAndFragment`; the map is walked in any order. */
  method AppendQueryAndFragment(link: string, params: Params, fragment: string,
                                securityOverride: string, omitTLSFields: bool) returns (out: string)
    requires ByteParams(params) && ByteText(fragment) && ByteText(securityOverride)
    ensures ByteParams(Effective(params, securityOverride, omitTLSFields))
    ensures out == WithFragment(WithQuery(link, Effective(params, securityOverride, omitTLSFields)), fragment)
  {
    hide Sorted, Join, EncodeUserinfo;
    out := link;
    var effective := Effective(params, securityOverride, omitTLSFields);
    if |params| > 0 {
      var q: Params := map[];
      var left := params.Keys;
      while left != {}
        invariant left <= params.Keys
        invariant q == map k | k in effective && k !in left :: effective[k]
        decreases |left|
      {
        var k := PickOne(left);
        left := left - {k};
        var v := params[k];
        if securityOverride != "" && k == "security" {
          v := securityOverride;
        }
        if omitTLSFields && k in TLS_HINTS {
          continue;
        }
        q := q[k := v];
      }
      assert q == effective;
      var encoded := EncodeQuery(q);
      if encoded != "" {
        out := out + (if '?' in link then "&" else "?");
        out := out + encoded;
      }
    } else {
      assert effective == map[];
      NoPairs();
    }
    if fragment != "" {
      out := out + "#";
      out := out + EncodeUserinfo(fragment);
    }
  }

  lemma NoPairs()
    ensures EncodeQuery(map[]) == ""
  {
  }

  /** The link of `genTrojanLink` before query and fragment. */
  function TrojanLink(password: string, host: string, port: int): string
    requires ByteText(password)
  {
    "trojan://" + EncodeUserinfo(password) + "@" + JoinHostPort(host, port)
  }

  // ---------------------------------------------------------------- the reader

  datatype Parts = Parts(password: string, host: string, port: int, query: map<string, seq<string>>, fragment: string)

  function LastIndexOf(s: string, c: char): (i: int)
    ensures -1 <= i < |s| && (i >= 0 ==> s[i] == c)
    ensures forall j :: i < j < |s| ==> s[j] != c
  {
    if s == "" then -1 else if s[|s| - 1] == c then |s| - 1 else LastIndexOf(s[..|s| - 1], c)
  }

  function Before(s: string, c: char): string { s[..IndexOf(s, c)] }

  function After(s: string, c: char): string {
    if IndexOf(s, c) == |s| then "" else s[IndexOf(s, c) + 1..]
  }

  /** `url.ParseQuery`: malformed pairs are skipped, values of one key collected in order. */
  function ReadPairs(parts: seq<string>): map<string, seq<string>> {
    if parts == [] then map[]
    else
      var values := ReadPairs(parts[..|parts| - 1]);
      var part := parts[|parts| - 1];
      if part == "" || ';' in part then values
      else
        match (Unescape(Before(part, '='), true), Unescape(After(part, '='), true))
        case (Some(k), Some(v)) => values[k := (if k in values then values[k] else []) + [v]]
        case _ => values
  }

  function ReadQuery(query: string): map<string, seq<string>> { ReadPairs(Split(query, '&')) }

  /** Host and port of an authority without userinfo. */
  function ReadHostPort(s: string): Option<(string, int)> {
    var colon := LastIndexOf(s, ':');
    if colon < 0 || colon + 1 == |s| || !AllDigits(s[colon + 1..]) then None
    else
      var host := s[..colon];
      var bare :=
        if |host| >= 2 && host[0] == '[' && host[|host| - 1] == ']' then host[1..|host| - 1] else host;
      Some((bare, DigitsValue(s[colon + 1..])))
  }

  /** The authority ends at the first `/`, its userinfo at the last `@`. */
  function ReadAuthority(s: string): Option<(string, string, int)> {
    var authority := Before(s, '/');
    var at := LastIndexOf(authority, '@');
    var user := if at < 0 then "" else authority[..at];
    match (Unescape(user, false), ReadHostPort(authority[at + 1..]))
    case (Some(password), Some(hp)) => Some((password, hp.0, hp.1))
    case _ => None
  }

  const SCHEME := "trojan://"

  function ReadLink(link: string): Option<Parts> {
    var body := Before(link, '#');
    var head := Before(body, '?');
    if |head| < |SCHEME| || head[..|SCHEME|] != SCHEME then None
    else
      match (ReadAuthority(head[|SCHEME|..]), Unescape(After(link, '#'), false))
      case (Some(a), Some(fragment)) => Some(Parts(a.0, a.1, a.2, ReadQuery(After(body, '?')), fragment))
      case _ => None
  }

  // ---------------------------------------------------------------- reading back

  /** The characters that end an authority, and `@`, which would move the end of the userinfo. */
  predicate Delimits(c: char) { c == '#' || c == '?' || c == '/' || c == '@' }

  predicate Undelimited(s: string) { forall c :: c in s ==> !Delimits(c) }

  lemma BeforeStays(s: string, c: char)
    requires c !in s
    ensures Before(s, c) == s && After(s, c) == ""
  {
    assert IndexOf(s, c) == |s|;
  }

  lemma BeforeAfter(a: string, c: char, b: string)
    requires c !in a
    ensures Before(a + [c] + b, c) == a && After(a + [c] + b, c) == b
  {
    IndexOfPrefix(a, c, b);
    assert (a + [c] + b)[|a| + 1..] == b;
  }

  lemma LastIndexIs(s: string, c: char, i: nat)
    requires i < |s| && s[i] == c && forall j :: i < j < |s| ==> s[j] != c
    ensures LastIndexOf(s, c) == i
  {
    hide LastIndexOf;
  }

  lemma LastIndexAbsent(s: string, c: char)
    requires c !in s
    ensures LastIndexOf(s, c) == -1
  {
    hide LastIndexOf;
    var i := LastIndexOf(s, c);
    assert forall j :: 0 <= j < |s| ==> s[j] in s;
  }

  lemma LastIndexOfSuffix(a: string, c: char, b: string)
    requires c !in b
    ensures LastIndexOf(a + [c] + b, c) == |a|
    ensures (a + [c] + b)[..|a|] == a && (a + [c] + b)[|a| + 1..] == b
  {
    hide LastIndexOf;
    var s := a + [c] + b;
    var tail := s[|a| + 1..];
    assert tail == b;
    assert forall j :: |a| < j < |s| ==> s[j] == tail[j - |a| - 1];
    LastIndexIs(s, c, |a|);
  }

  lemma {:induction false} PairsReadBack(keys: seq<string>, params: Params)
    requires ByteParams(params) && forall k :: k in keys ==> k in params
    requires forall i, j :: 0 <= i < j < |keys| ==> keys[i] != keys[j]
    ensures ReadPairs(Pairs(keys, params)) == map k | k in keys :: [params[k]]
  {
    hide Pair, Unescape, Before, After, QueryEscape;
    if keys != [] {
      var n := |keys| - 1;
      var k, v := keys[n], params[keys[n]];
      PairsReadBack(keys[..n], params);
      PairReadsBack(k, v);
      var pairs := Pairs(keys, params);
      assert pairs[..|pairs| - 1] == Pairs(keys[..n], params);
      var values := ReadPairs(Pairs(keys[..n], params));
      assert k !in values;
      assert ReadPairs(pairs) == values[k := [v]] by {
        var none: seq<string> := [];
        assert none + [v] == [v];
      }
      assert forall x :: x in keys <==> x in keys[..n] || x == k;
    }
  }

  /** What an encoded pair is made of. */
  predicate PairChar(c: char) { Unreserved(c) || c == '%' || c == '+' || c == '=' }

  lemma PairReadsBack(k: string, v: string)
    requires ByteText(k) && ByteText(v)
    ensures var p := Pair(k, v);
            && p != "" && (forall c :: c in p ==> PairChar(c))
            && Unescape(Before(p, '='), true) == Some(k) && Unescape(After(p, '='), true) == Some(v)
  {
    hide Unescape, QueryEscape, Before, After;
    QueryReadsBack(k);
    QueryReadsBack(v);
    assert '=' !in QueryEscape(k);
    BeforeAfter(QueryEscape(k), '=', QueryEscape(v));
  }

  lemma {:induction false} PairsArePlain(keys: seq<string>, params: Params)
    requires ByteParams(params) && forall k :: k in keys ==> k in params
    ensures |Pairs(keys, params)| == |keys|
    ensures forall p :: p in Pairs(keys, params) ==> p != "" && forall c :: c in p ==> PairChar(c)
  {
    hide Pair, Unescape, Before, After, QueryEscape;
    if keys != [] {
      var n := |keys| - 1;
      PairsArePlain(keys[..n], params);
      PairReadsBack(keys[n], params[keys[n]]);
    }
  }

  lemma {:induction false} JoinIsPlain(parts: seq<string>)
    requires forall p :: p in parts ==> forall c :: c in p ==> PairChar(c)
    ensures forall c :: c in Join(parts, '&') ==> PairChar(c) || c == '&'
  {
    hide PairChar;
    if parts != [] {
      assert parts[0] in parts;
      assert forall p :: p in parts[1..] ==> p in parts;
      JoinIsPlain(parts[1..]);
    }
  }

  lemma QueryIsPlain(params: Params)
    requires ByteParams(params)
    ensures forall c :: c in EncodeQuery(params) ==> PairChar(c) || c == '&'
  {
    hide Sorted, Join, Pairs, PairChar;
    SortedOrders(params.Keys);
    PairsArePlain(Sorted(params.Keys), params);
    JoinIsPlain(Pairs(Sorted(params.Keys), params));
  }

  lemma JoinIsEmpty(parts: seq<string>, c: char)
    requires forall p :: p in parts ==> p != ""
    ensures Join(parts, c) == "" <==> parts == []
  {
    if parts != [] {
      assert parts[0] in parts;
    }
  }

  /** A query is read back key by key, whatever the keys and values hold. */
  lemma QueryTextReadsBack(params: Params)
    requires ByteParams(params)
    ensures '#' !in EncodeQuery(params) && (EncodeQuery(params) == "" <==> params == map[])
    ensures params != map[] ==> ReadQuery(EncodeQuery(params)) == map k | k in params :: [params[k]]
  {
    hide Sorted, Join, Split, Pairs, ReadPairs;
    SortedOrders(params.Keys);
    var keys := Sorted(params.Keys);
    var pairs := Pairs(keys, params);
    PairsArePlain(keys, params);
    QueryIsPlain(params);
    JoinIsEmpty(pairs, '&');
    assert params == map[] <==> params.Keys == {};
    if params != map[] {
      SplitJoin(pairs, '&');
      PairsReadBack(keys, params);
    }
  }

  // ---------------------------------------------------------------- host and port

  lemma {:induction false} TrimmedEnds(host: string)
    ensures var h := TrimRight(host); h != "" ==> !IsBracket(h[|h| - 1]) && host != "" && h[0] == host[0]
  {
    if host != "" && IsBracket(host[|host| - 1]) {
      TrimmedEnds(host[..|host| - 1]);
    }
  }

  lemma {:induction false} TrimmedStart(host: string)
    ensures var h := TrimLeft(host); h != "" ==> !IsBracket(h[0])
  {
    if host != "" && IsBracket(host[0]) {
      TrimmedStart(host[1..]);
    }
  }

  predicate Brackets(s: string) { forall c :: c in s ==> IsBracket(c) }

  lemma {:induction false} TrimLeftCuts(s: string) returns (a: string)
    ensures Brackets(a) && s == a + TrimLeft(s)
  {
    if s != "" && IsBracket(s[0]) {
      var more := TrimLeftCuts(s[1..]);
      a := [s[0]] + more;
      assert s == [s[0]] + s[1..];
    } else {
      a := "";
      assert s == "" + s;
    }
  }

  lemma {:induction false} TrimRightCuts(s: string) returns (b: string)
    ensures Brackets(b) && s == TrimRight(s) + b
  {
    if s != "" && IsBracket(s[|s| - 1]) {
      var more := TrimRightCuts(s[..|s| - 1]);
      b := more + [s[|s| - 1]];
      assert s == s[..|s| - 1] + [s[|s| - 1]];
    } else {
      b := "";
      assert s == s + "";
    }
  }

  /** A host is what is printed of it between brackets, and what is printed begins and ends with none. */
  lemma HostBetweenBrackets(host: string) returns (a: string, b: string)
    ensures Brackets(a) && Brackets(b) && host == a + TrimBrackets(host) + b
    ensures var h := TrimBrackets(host); h != "" ==> !IsBracket(h[0]) && !IsBracket(h[|h| - 1])
  {
    a := TrimLeftCuts(host);
    b := TrimRightCuts(TrimLeft(host));
    TrimmedStart(host);
    TrimmedEnds(TrimLeft(host));
    assert a + (TrimBrackets(host) + b) == a + TrimBrackets(host) + b;
  }

  /** Brackets are printed once and stripped once, ports are read back unless negative. */
  lemma HostPortReadsBack(host: string, port: int)
    ensures ReadHostPort(JoinHostPort(host, port)) == if port < 0 then None else Some((TrimBrackets(host), port))
  {
    hide TrimLeft, TrimRight, Itoa, ReadHostPort;
    var h := TrimBrackets(host);
    TrimmedStart(host);
    TrimmedEnds(TrimLeft(host));
    var digits := Itoa(port);
    ReadPrinted(if ':' in h then "[" + h + "]" else h, h, port);
    var shown := if ':' in h then "[" + h + "]" else h;
    assert JoinHostPort(host, port) == shown + [':'] + digits;
  }

  lemma NoColonInItoa(port: int)
    ensures ':' !in Itoa(port) && (AllDigits(Itoa(port)) <==> port >= 0)
    ensures port >= 0 ==> DigitsValue(Itoa(port)) == port
  {
    if port >= 0 {
      DigitsReadBack(port);
    } else {
      assert Itoa(port)[0] == '-';
      assert forall c :: c in Itoa(port) ==> c == '-' || IsDigit(c);
    }
  }

  lemma ReadPrinted(shown: string, h: string, port: int)
    requires shown == h || shown == "[" + h + "]"
    requires shown == h && h != "" ==> !IsBracket(h[0])
    ensures ReadHostPort(shown + [':'] + Itoa(port)) == if port < 0 then None else Some((h, port))
  {
    NoColonInItoa(port);
    LastIndexOfSuffix(shown, ':', Itoa(port));
    if shown != h {
      assert shown[1..|shown| - 1] == h;
    }
  }

  lemma HostPortDelimits(host: string, port: int)
    ensures Undelimited(TrimBrackets(host)) ==> Undelimited(JoinHostPort(host, port))
  {
    hide TrimBrackets, Itoa;
    var h, digits := TrimBrackets(host), Itoa(port);
    assert forall c :: c in JoinHostPort(host, port) ==> c in h || IsBracket(c) || c == ':' || c in digits;
    assert forall c :: c in digits ==> c == '-' || IsDigit(c);
  }

  lemma QueryCut(head: string, params: Params)
    requires ByteParams(params) && '?' !in head
    ensures Before(WithQuery(head, params), '?') == head
    ensures After(WithQuery(head, params), '?') == EncodeQuery(params)
    ensures '#' !in head ==> '#' !in WithQuery(head, params)
    ensures ReadQuery(EncodeQuery(params)) == map k | k in params :: [params[k]]
  {
    hide EncodeQuery, ReadQuery, Before, After;
    var query := EncodeQuery(params);
    QueryTextReadsBack(params);
    if query == "" {
      BeforeStays(head, '?');
      EmptyQuery();
    } else {
      BeforeAfter(head, '?', query);
      assert head + "?" + query == head + ['?'] + query;
    }
  }

  lemma EmptyQuery()
    ensures ReadQuery("") == map[]
  {
    assert IndexOf("", '&') == 0;
    assert Split("", '&') == [""];
    var parts: seq<string> := [""];
    assert parts[..0] == [];
  }

  lemma FragmentCut(body: string, fragment: string)
    requires ByteText(fragment) && '#' !in body
    ensures Before(WithFragment(body, fragment), '#') == body
    ensures Unescape(After(WithFragment(body, fragment), '#'), false) == Some(fragment)
  {
    hide Before, After, EncodeUserinfo;
    UserinfoReadsBack(fragment);
    if fragment == "" {
      BeforeStays(body, '#');
    } else {
      BeforeAfter(body, '#', EncodeUserinfo(fragment));
      assert body + "#" + EncodeUserinfo(fragment) == body + ['#'] + EncodeUserinfo(fragment);
    }
  }

  lemma BeforeLacks(s: string, c: char)
    ensures forall d :: d in Before(s, c) ==> d in s && d != c
  {
  }

  lemma HostIsPart(s: string)
    requires Undelimited(s) && ReadHostPort(s).Some?
    ensures Undelimited(ReadHostPort(s).value.0)
  {
    hide LastIndexOf;
    var host := s[..LastIndexOf(s, ':')];
    assert Undelimited(host);
    var bare := ReadHostPort(s).value.0;
    assert forall c :: c in bare ==> c in host;
  }

  lemma AuthorityHostUndelimited(s: string)
    requires '#' !in s && '?' !in s && ReadAuthority(s).Some?
    ensures Undelimited(ReadAuthority(s).value.1)
  {
    hide LastIndexOf, Before, ReadHostPort, Unescape;
    var authority := Before(s, '/');
    var at := LastIndexOf(authority, '@');
    BeforeLacks(s, '/');
    var hostPort := authority[at + 1..];
    forall i | 0 <= i < |hostPort| ensures !Delimits(hostPort[i]) {
      assert hostPort[i] == authority[at + 1 + i] && authority[at + 1 + i] in authority;
    }
    HostIsPart(hostPort);
  }

  /** No reader finds a delimiter in a host. */
  lemma HostReadUndelimited(link: string)
    requires ReadLink(link).Some?
    ensures Undelimited(ReadLink(link).value.host)
  {
    hide Before, After, ReadAuthority, ReadQuery, Unescape;
    var body := Before(link, '#');
    var head := Before(body, '?');
    BeforeLacks(link, '#');
    BeforeLacks(body, '?');
    assert forall c :: c in head[|SCHEME|..] ==> c in head;
    AuthorityHostUndelimited(head[|SCHEME|..]);
  }

  /** The link of a Trojan client with its query and remark. */
  function FullLink(password: string, host: string, port: int, params: Params, remark: string): string
    requires ByteText(password) && ByteParams(params) && ByteText(remark)
  {
    WithFragment(WithQuery(TrojanLink(password, host, port), params), remark)
  }

  /**
  The link reads back to exactly its password, host, port, parameters and remark, for every
  password, parameter map and remark, if and only if the host holds none of `# ? / @` (IPv6
  addresses, bracketed or not, do) and the port is not negative.
  */
  lemma LinkReadsBack(password: string, host: string, port: int, params: Params, remark: string)
    requires ByteText(password) && ByteParams(params) && ByteText(remark)
    ensures var parts := Parts(password, TrimBrackets(host), port, map k | k in params :: [params[k]], remark);
            ReadLink(FullLink(password, host, port, params, remark)) == Some(parts)
            <==> Undelimited(TrimBrackets(host)) && port >= 0
  {
    if Undelimited(TrimBrackets(host)) {
      PlainHostReadsBack(password, host, port, params, remark);
    } else {
      var link := FullLink(password, host, port, params, remark);
      if ReadLink(link).Some? {
        HostReadUndelimited(link);
      }
    }
  }

  /** How a link comes apart when no delimiter is in its host. */
  lemma LinkSplits(password: string, host: string, port: int, params: Params, remark: string)
    requires ByteText(password) && ByteParams(params) && ByteText(remark)
    requires Undelimited(TrimBrackets(host))
    ensures var link := FullLink(password, host, port, params, remark);
            var body, user := WithQuery(TrojanLink(password, host, port), params), EncodeUserinfo(password);
            var authority := user + ['@'] + JoinHostPort(host, port);
            && Before(link, '#') == body && Unescape(After(link, '#'), false) == Some(remark)
            && Before(body, '?') == SCHEME + authority && ReadQuery(After(body, '?')) == (map k | k in params :: [params[k]])
            && (SCHEME + authority)[|SCHEME|..] == authority && Before(authority, '/') == authority
            && LastIndexOf(authority, '@') == |user| && authority[..|user|] == user
            && authority[|user| + 1..] == JoinHostPort(host, port) && Unescape(user, false) == Some(password)
  {
    hide EncodeUserinfo, JoinHostPort, TrimBrackets, Unescape, ReadQuery, WithQuery, WithFragment, Before, After,
      LastIndexOf;
    var head, user, hostPort := TrojanLink(password, host, port), EncodeUserinfo(password), JoinHostPort(host, port);
    var authority := user + ['@'] + hostPort;
    assert head == SCHEME + authority;
    UserinfoReadsBack(password);
    HostPortDelimits(host, port);
    assert '?' !in head && '#' !in head && '/' !in authority;
    QueryCut(head, params);
    FragmentCut(WithQuery(head, params), remark);
    BeforeStays(authority, '/');
    LastIndexOfSuffix(user, '@', hostPort);
  }

  lemma PlainHostReadsBack(password: string, host: string, port: int, params: Params, remark: string)
    requires ByteText(password) && ByteParams(params) && ByteText(remark)
    requires Undelimited(TrimBrackets(host))
    ensures ReadLink(FullLink(password, host, port, params, remark)) ==
            if port < 0 then None
            else Some(Parts(password, TrimBrackets(host), port, map k | k in params :: [params[k]], remark))
  {
    hide EncodeUserinfo, JoinHostPort, TrimBrackets, Unescape, ReadHostPort, ReadQuery, WithQuery, WithFragment, Before,
      After, LastIndexOf;
    LinkSplits(password, host, port, params, remark);
    HostPortReadsBack(host, port);
  }
}
