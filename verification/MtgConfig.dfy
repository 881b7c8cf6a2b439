/**
What an mtg sidecar is started with (internal/mtproto/manager.go:19-66, 334-371): the text of
its configuration file, and the fingerprint that decides whether it must be restarted.
*/
module MtgConfig {
  import opened Text
  import Json

  datatype Instance = Instance(
    id: int, tag: string, listen: string, port: int, secret: string,
    debug: bool, proxyProtocolListener: bool, preferIp: string,
    frontingIp: string, frontingPort: int, frontingProxyProtocol: bool,
    routeThroughXray: bool, xrayRoutePort: int)

  function BindTo(inst: Instance): string {
    (if inst.listen == "" then "0.0.0.0" else inst.listen) + ":" + Itoa(inst.port)
  }

  function FormatBool(b: bool): string { if b then "true" else "false" }

  function FingerprintFields(inst: Instance): seq<string> {
    [BindTo(inst), inst.secret, FormatBool(inst.debug), FormatBool(inst.proxyProtocolListener), inst.preferIp,
     inst.frontingIp, Itoa(inst.frontingPort), FormatBool(inst.frontingProxyProtocol),
     FormatBool(inst.routeThroughXray), Itoa(inst.xrayRoutePort)]
  }

  /** `Instance.fingerprint`. */
  function Fingerprint(inst: Instance): string { Join(FingerprintFields(inst), '|') }

  /** `renderConfig`; `quote` is the `%q` verb. */
  function RenderConfig(quote: string -> string, inst: Instance, metricsPort: int): string {
    HeadText(quote, BindTo(inst), inst.secret)
    + PreferText(quote, inst.debug, inst.proxyProtocolListener, inst.preferIp)
    + FrontingText(quote, inst.frontingIp, inst.frontingPort, inst.frontingProxyProtocol)
    + RoutingText(inst.routeThroughXray, inst.xrayRoutePort)
    + StatsText(metricsPort)
  }

  function StatsText(metricsPort: int): string {
    "\n[stats.prometheus]\n"
    + ("enabled = true\n" + ("bind-to = \"" + ("127.0.0.1:" + Itoa(metricsPort)) + "\"\n")
       + "http-path = \"/metrics\"\n" + "metric-prefix = \"mtg\"\n")
  }

  function HeadText(quote: string -> string, bindTo: string, secret: string): string {
    "secret = " + quote(secret) + "\nbind-to = " + quote(bindTo) + "\n"
  }

  function PreferText(quote: string -> string, debug: bool, listener: bool, preferIp: string): string {
    (if debug then "debug = true\n" else "")
    + (if listener then "proxy-protocol-listener = true\n" else "")
    + PreferLine(quote, preferIp)
  }

  function PreferLine(quote: string -> string, preferIp: string): string {
    if preferIp != "" then "prefer-ip = " + quote(preferIp) + "\n" else ""
  }

  function FrontingText(quote: string -> string, ip: string, port: int, proxyProtocol: bool): string {
    if ip != "" || port > 0 || proxyProtocol then
      "\n[domain-fronting]\n"
      + (if ip != "" then "ip = " + quote(ip) + "\n" else "")
      + (if port > 0 then "port = " + Itoa(port) + "\n" else "")
      + (if proxyProtocol then "proxy-protocol = true\n" else "")
    else ""
  }

  function RoutingText(through: bool, port: int): string {
    if through && port > 0 then
      "\n[network]\n" + ("proxies = [\"" + ("socks5://127.0.0.1:" + Itoa(port)) + "\"]\n")
    else ""
  }

  // ---------------------------------------------------------------- the pieces of a fingerprint

  /** The fingerprint cut at every bar: a free-text field may give several pieces. */
  function Pieces(inst: Instance): seq<string> {
    Front(inst) + [FormatBool(inst.debug), FormatBool(inst.proxyProtocolListener)]
    + Split(inst.preferIp, '|') + Split(inst.frontingIp, '|') + Back(inst)
  }

  /** The pieces of address and secret. */
  function Front(inst: Instance): seq<string> { Split(BindTo(inst), '|') + Split(inst.secret, '|') }

  function Back(inst: Instance): (back: seq<string>)
    ensures |back| == 4
  {
    [Itoa(inst.frontingPort), FormatBool(inst.frontingProxyProtocol), FormatBool(inst.routeThroughXray),
     Itoa(inst.xrayRoutePort)]
  }

  predicate NoBars(pieces: seq<string>) { forall p :: p in pieces ==> '|' !in p }

  lemma {:induction false} SplitHasNoBars(s: string)
    ensures NoBars(Split(s, '|'))
    decreases |s|
  {
    hide Split, IndexOf;
    SplitStep(s, '|');
    if '|' in s {
      SplitHasNoBars(s[IndexOf(s, '|') + 1..]);
    }
  }

  lemma ItoaBarFree(n: int)
    ensures '|' !in Itoa(n)
  {
    var s := Itoa(n);
    forall i | 0 <= i < |s| ensures s[i] != '|' {
      if i > 0 { assert s[i] == s[1..][i - 1]; }
    }
  }

  lemma BackHasNoBars(inst: Instance)
    ensures NoBars(Back(inst)) && '|' !in FormatBool(inst.debug) && '|' !in FormatBool(inst.proxyProtocolListener)
  {
    ItoaBarFree(inst.frontingPort);
    ItoaBarFree(inst.xrayRoutePort);
    hide Itoa;
  }

  lemma PiecesHaveNoBars(inst: Instance)
    ensures NoBars(Pieces(inst))
  {
    BackHasNoBars(inst);
    SplitHasNoBars(BindTo(inst));
    SplitHasNoBars(inst.secret);
    SplitHasNoBars(inst.preferIp);
    SplitHasNoBars(inst.frontingIp);
    hide Back, Split, BindTo, FormatBool;
  }

  /** Joining lists one after the other. */
  lemma {:induction false} JoinConcat(a: seq<string>, b: seq<string>)
    requires a != [] && b != []
    ensures Join(a + b, '|') == Join(a, '|') + ['|'] + Join(b, '|')
  {
    if |a| == 1 {
      assert (a + b)[1..] == b;
    } else {
      JoinConcat(a[1..], b);
      assert (a + b)[1..] == a[1..] + b;
      Reassociate(a[0], ['|'], Join(a[1..], '|'), ['|'], Join(b, '|'));
    }
  }

  lemma Reassociate(a: string, b: string, c: string, d: string, e: string)
    ensures a + b + (c + d + e) == a + b + c + d + e
  {}

  /** A field in the middle of a list may be replaced by its pieces. */
  lemma JoinPieces(before: seq<string>, field: string, after: seq<string>)
    requires after != []
    ensures Join(before + Split(field, '|') + after, '|') == Join(before + [field] + after, '|')
  {
    hide Join, Split;
    JoinSplit(field, '|');
    var pieces := Split(field, '|');
    OneField(field);
    JoinConcat(pieces, after);
    JoinConcat([field], after);
    assert before + pieces + after == before + (pieces + after) && before + [field] + after == before + ([field] + after);
    if before == [] {
      assert before + (pieces + after) == pieces + after && before + ([field] + after) == [field] + after;
    } else {
      JoinConcat(before, pieces + after);
      JoinConcat(before, [field] + after);
    }
  }

  lemma OneField(field: string)
    ensures Join([field], '|') == field
  {
  }

  lemma FingerprintIsPieces(inst: Instance)
    ensures Join(Pieces(inst), '|') == Fingerprint(inst)
  {
    hide Join, Split, BindTo, Itoa, FormatBool;
    var f := FingerprintFields(inst);
    var bind, secret := Split(BindTo(inst), '|'), Split(inst.secret, '|');
    var flags, back := [FormatBool(inst.debug), FormatBool(inst.proxyProtocolListener)], Back(inst);
    assert f == [BindTo(inst), inst.secret] + flags + [inst.preferIp, inst.frontingIp] + back;
    hide Back;
    JoinFour(BindTo(inst), inst.secret, flags, inst.preferIp, inst.frontingIp, back);
    assert bind + secret == Front(inst);
  }

  /** Four fields of a list replaced by their pieces. */
  lemma JoinFour(a: string, b: string, flags: seq<string>, c: string, d: string, back: seq<string>)
    requires back != []
    ensures Join(Split(a, '|') + Split(b, '|') + flags + Split(c, '|') + Split(d, '|') + back, '|')
            == Join([a, b] + flags + [c, d] + back, '|')
  {
    hide Join, Split;
    var x, y, z := Split(a, '|'), Split(b, '|'), Split(c, '|');
    var none: seq<string> := [];
    JoinPieces(none, a, [b] + flags + [c, d] + back);
    assert none + x + ([b] + flags + [c, d] + back) == x + [b] + (flags + [c, d] + back);
    assert none + [a] + ([b] + flags + [c, d] + back) == [a, b] + flags + [c, d] + back;
    JoinPieces(x, b, flags + [c, d] + back);
    assert x + y + (flags + [c, d] + back) == x + y + flags + [c] + ([d] + back);
    JoinPieces(x + y + flags, c, [d] + back);
    assert x + y + flags + z + ([d] + back) == x + y + flags + z + [d] + back;
    JoinPieces(x + y + flags + z, d, back);
  }

  /** Fingerprints are equal exactly if their pieces are. */
  lemma PiecesDecide(a: Instance, b: Instance)
    ensures Fingerprint(a) == Fingerprint(b) <==> Pieces(a) == Pieces(b)
  {
    hide Pieces, Fingerprint, Join, Split;
    FingerprintIsPieces(a);
    FingerprintIsPieces(b);
    PiecesHaveNoBars(a);
    PiecesHaveNoBars(b);
    PiecesExist(a);
    PiecesExist(b);
    if Fingerprint(a) == Fingerprint(b) {
      SplitJoin(Pieces(a), '|');
      SplitJoin(Pieces(b), '|');
    }
  }

  lemma PiecesExist(a: Instance)
    ensures Pieces(a) != []
  {
  }

  // ---------------------------------------------------------------- when a fingerprint can be read in two ways

  predicate IsFlag(s: string) { s == "true" || s == "false" }

  /** The text is an address: something, a colon, and a number as it is printed. */
  predicate IsBindTo(text: string) {
    exists c :: 0 < c < |text| && text[c] == ':' && Atoi(text[c + 1..]).Some?
                && Itoa(Atoi(text[c + 1..]).value) == text[c + 1..]
  }

  /** Address and secret can be told apart at another bar as well. */
  predicate AnotherCut(a: Instance) {
    exists i :: 0 < i < |Front(a)| && i != |Split(BindTo(a), '|')| && IsBindTo(Join(Front(a)[..i], '|'))
  }

  /** The end of the secret reads as flags: two pieces after its first, or the last of them alone. */
  predicate LooseFlags(a: Instance) {
    var secret := Split(a.secret, '|');
    exists q :: 0 < q < |secret| && IsFlag(secret[q]) && (q + 1 < |secret| ==> IsFlag(secret[q + 1]))
  }

  predicate Ambiguous(a: Instance) { '|' in a.preferIp || '|' in a.frontingIp || AnotherCut(a) || LooseFlags(a) }

  lemma FormatBoolReads(b: bool)
    ensures IsFlag(FormatBool(b)) && (FormatBool(b) == "true" <==> b)
  {
    assert "true"[0] != "false"[0];
  }

  lemma FlagIsBool(s: string)
    requires IsFlag(s)
    ensures s == FormatBool(s == "true")
  {
  }

  lemma BindToIsBindTo(inst: Instance)
    ensures IsBindTo(BindTo(inst))
  {
    var host := if inst.listen == "" then "0.0.0.0" else inst.listen;
    var text := BindTo(inst);
    ItoaReadBack(inst.port);
    assert text == host + ":" + Itoa(inst.port);
    assert text[|host|] == ':' && text[|host| + 1..] == Itoa(inst.port);
  }

  /** An address text is the address of some instance. */
  lemma BindToOf(a: Instance, text: string) returns (listen: string, port: int)
    requires IsBindTo(text)
    ensures BindTo(a.(listen := listen, port := port)) == text
  {
    hide Itoa, Atoi;
    var c :| 0 < c < |text| && text[c] == ':' && Atoi(text[c + 1..]).Some?
             && Itoa(Atoi(text[c + 1..]).value) == text[c + 1..];
    listen, port := text[..c], Atoi(text[c + 1..]).value;
    assert text == listen + [':'] + text[c + 1..];
  }

  lemma SplitIsField(a: string, b: string)
    ensures Split(a, '|') == Split(b, '|') ==> a == b
  {
    JoinSplit(a, '|');
    JoinSplit(b, '|');
  }

  lemma BarsGivePieces(s: string)
    ensures |Split(s, '|')| == 1 <==> '|' !in s
  {
    hide IndexOf;
    SplitStep(s, '|');
  }

  // ---------------------------------------------------------------- reading it in another way

  /** `b` has the pieces of `a` if its fields are made of them in this order. */
  lemma SamePieces(a: Instance, b: Instance, bind: seq<string>, secret: seq<string>, debug: string, listener: string,
                   prefer: seq<string>, fronting: seq<string>)
    requires bind != [] && secret != [] && prefer != [] && fronting != []
    requires NoBars(bind) && NoBars(secret) && NoBars(prefer) && NoBars(fronting)
    requires bind + secret + [debug, listener] + prefer + fronting + Back(a) == Pieces(a)
    requires BindTo(b) == Join(bind, '|') && b.secret == Join(secret, '|')
    requires FormatBool(b.debug) == debug && FormatBool(b.proxyProtocolListener) == listener
    requires b.preferIp == Join(prefer, '|') && b.frontingIp == Join(fronting, '|') && Back(b) == Back(a)
    ensures Fingerprint(a) == Fingerprint(b)
    ensures Split(BindTo(b), '|') == bind && Split(b.secret, '|') == secret
    ensures Split(b.preferIp, '|') == prefer && Split(b.frontingIp, '|') == fronting
  {
    hide Split, Join, Back, BindTo, FormatBool;
    SplitJoin(bind, '|');
    SplitJoin(secret, '|');
    SplitJoin(prefer, '|');
    SplitJoin(fronting, '|');
    PiecesDecide(a, b);
  }

  /** Another cut of address and secret. */
  lemma CutAgain(a: Instance) returns (b: Instance)
    requires AnotherCut(a)
    ensures Fingerprint(a) == Fingerprint(b) && a.secret != b.secret
  {
    hide Split, Join, FormatBool, IsBindTo, Fingerprint;
    var front := Front(a);
    var i :| 0 < i < |front| && i != |Split(BindTo(a), '|')| && IsBindTo(Join(front[..i], '|'));
    var listen, port := BindToOf(a, Join(front[..i], '|'));
    b := a.(listen := listen, port := port, secret := Join(front[i..], '|'));
    FrontHasNoBars(a, i);
    SplitHasNoBars(a.preferIp);
    SplitHasNoBars(a.frontingIp);
    JoinSplit(a.preferIp, '|');
    JoinSplit(a.frontingIp, '|');
    assert |Split(a.secret, '|')| == |front| - |Split(BindTo(a), '|')|;
    assert BindTo(b) == Join(front[..i], '|');
    hide Front, AnotherCut, BindTo;
    assert front[..i] + front[i..] == front;
    SamePieces(a, b, front[..i], front[i..], FormatBool(a.debug), FormatBool(a.proxyProtocolListener),
               Split(a.preferIp, '|'), Split(a.frontingIp, '|'));
  }

  lemma FrontHasNoBars(a: Instance, i: nat)
    requires i <= |Front(a)|
    ensures NoBars(Front(a)[..i]) && NoBars(Front(a)[i..])
  {
    SplitHasNoBars(BindTo(a));
    SplitHasNoBars(a.secret);
    hide Split, BindTo;
  }

  /** The end of the secret read as flags, and what follows as the preferred address. */
  lemma FlagsAgain(a: Instance) returns (b: Instance)
    requires LooseFlags(a)
    ensures Fingerprint(a) == Fingerprint(b) && a.secret != b.secret
  {
    hide Split, Join, FormatBool, Fingerprint;
    var secret, prefer := Split(a.secret, '|'), Split(a.preferIp, '|');
    var q :| 0 < q < |secret| && IsFlag(secret[q]) && (q + 1 < |secret| ==> IsFlag(secret[q + 1]));
    var d, l := FormatBool(a.debug), FormatBool(a.proxyProtocolListener);
    var listener := if q + 1 < |secret| then secret[q + 1] else d;
    var rest := (if q + 1 < |secret| then secret[q + 2..] + [d, l] else [l]) + prefer;
    FormatBoolReads(a.debug);
    FlagIsBool(secret[q]);
    FlagIsBool(listener);
    b := a.(secret := Join(secret[..q], '|'), debug := secret[q] == "true",
            proxyProtocolListener := listener == "true", preferIp := Join(rest, '|'));
    SplitHasNoBars(a.secret);
    SplitHasNoBars(a.preferIp);
    SplitHasNoBars(a.frontingIp);
    SplitHasNoBars(BindTo(a));
    JoinSplit(a.frontingIp, '|');
    JoinSplit(BindTo(a), '|');
    BackHasNoBars(a);
    FlagsOfRest(a, q, rest);
    assert BindTo(b) == BindTo(a);
    hide BindTo, LooseFlags;
    SamePieces(a, b, Split(BindTo(a), '|'), secret[..q], secret[q], listener, rest, Split(a.frontingIp, '|'));
  }

  lemma FlagsOfRest(a: Instance, q: nat, rest: seq<string>)
    requires 0 < q < |Split(a.secret, '|')|
    requires var secret, d, l := Split(a.secret, '|'), FormatBool(a.debug), FormatBool(a.proxyProtocolListener);
             rest == (if q + 1 < |secret| then secret[q + 2..] + [d, l] else [l]) + Split(a.preferIp, '|')
    ensures var secret := Split(a.secret, '|');
            var listener := if q + 1 < |secret| then secret[q + 1] else FormatBool(a.debug);
            Split(BindTo(a), '|') + secret[..q] + [secret[q], listener] + rest + Split(a.frontingIp, '|') + Back(a) == Pieces(a)
  {
    hide Split, BindTo, FormatBool, Back;
    var secret, d, l := Split(a.secret, '|'), FormatBool(a.debug), FormatBool(a.proxyProtocolListener);
    if q + 1 < |secret| {
      assert secret[..q] + [secret[q], secret[q + 1]] + secret[q + 2..] == secret;
    } else {
      assert secret[..q] + [secret[q]] == secret;
    }
  }

  lemma Regrouped(before: seq<string>, x: seq<string>, y: seq<string>, k: nat, after: seq<string>)
    requires k <= |x + y|
    ensures before + (x + y)[..k] + (x + y)[k..] + after == before + x + y + after
  {
    assert (x + y)[..k] + (x + y)[k..] == x + y;
    assert before + (x + y)[..k] + (x + y)[k..] == before + ((x + y)[..k] + (x + y)[k..]);
    assert before + x + y == before + (x + y);
  }

  /** A bar in the preferred or the fronting address: the two can be told apart at another bar. */
  lemma BarsAgain(a: Instance) returns (b: Instance)
    requires '|' in a.preferIp || '|' in a.frontingIp
    ensures Fingerprint(a) == Fingerprint(b) && b == a.(preferIp := b.preferIp, frontingIp := b.frontingIp)
    ensures a.preferIp != b.preferIp
  {
    hide Split, Join, FormatBool, Fingerprint;
    var prefer, fronting := Split(a.preferIp, '|'), Split(a.frontingIp, '|');
    BarsGivePieces(a.preferIp);
    BarsGivePieces(a.frontingIp);
    SplitHasNoBars(a.preferIp);
    SplitHasNoBars(a.frontingIp);
    SplitHasNoBars(BindTo(a));
    SplitHasNoBars(a.secret);
    JoinSplit(BindTo(a), '|');
    JoinSplit(a.secret, '|');
    var both := prefer + fronting;
    var k := if |fronting| > 1 then |prefer| + 1 else |prefer| - 1;
    b := a.(preferIp := Join(both[..k], '|'), frontingIp := Join(both[k..], '|'));
    assert BindTo(b) == BindTo(a);
    hide BindTo;
    assert both[..k] + both[k..] == both;
    var bind, secret := Split(BindTo(a), '|'), Split(a.secret, '|');
    var flags := [FormatBool(a.debug), FormatBool(a.proxyProtocolListener)];
    Regrouped(bind + secret + flags, prefer, fronting, k, Back(a));
    SamePieces(a, b, Split(BindTo(a), '|'), Split(a.secret, '|'), FormatBool(a.debug),
               FormatBool(a.proxyProtocolListener), both[..k], both[k..]);
  }

  // ---------------------------------------------------------------- reading it in only one way

  /** Everything but the last four pieces. */
  function Middle(a: Instance): seq<string> {
    Front(a) + [FormatBool(a.debug), FormatBool(a.proxyProtocolListener)]
    + Split(a.preferIp, '|') + Split(a.frontingIp, '|')
  }

  lemma MiddlesEqual(a: Instance, b: Instance)
    requires Pieces(a) == Pieces(b)
    ensures Middle(a) == Middle(b) && Back(a) == Back(b)
  {
    hide Split, Front, FormatBool, Back;
    var n := |Pieces(a)| - 4;
    assert Pieces(a)[..n] == Middle(a) && Pieces(b)[..n] == Middle(b);
    assert Pieces(a)[n..] == Back(a) && Pieces(b)[n..] == Back(b);
  }

  /** The address of `b` is cut off where that of `a` is. */
  lemma SameCut(a: Instance, b: Instance)
    requires !AnotherCut(a) && |Front(b)| <= |Front(a)| && Front(b) == Front(a)[..|Front(b)|]
    ensures Split(BindTo(b), '|') == Split(BindTo(a), '|')
  {
    BindToIsBindTo(b);
    JoinSplit(BindTo(b), '|');
    hide Split, BindTo, IsBindTo, Join;
    var i := |Split(BindTo(b), '|')|;
    assert Front(b)[..i] == Split(BindTo(b), '|') == Front(a)[..i];
    assert Front(a)[..|Split(BindTo(a), '|')|] == Split(BindTo(a), '|');
  }

  lemma OneReading(a: Instance, b: Instance)
    requires !Ambiguous(a) && Fingerprint(a) == Fingerprint(b)
    ensures FingerprintFields(a) == FingerprintFields(b)
  {
    PiecesDecide(a, b);
    MiddlesEqual(a, b);
    BarsGivePieces(a.preferIp);
    BarsGivePieces(a.frontingIp);
    ShorterFront(a, b);
    SameFields(a, b);
  }

  /** The front of `b` cannot end earlier: what follows it would have to read as flags. */
  lemma ShorterFront(a: Instance, b: Instance)
    requires Middle(a) == Middle(b) && |Split(a.preferIp, '|')| == 1 && |Split(a.frontingIp, '|')| == 1
    requires !AnotherCut(a) && !LooseFlags(a)
    ensures |Front(b)| == |Front(a)| && Split(BindTo(b), '|') == Split(BindTo(a), '|')
  {
    hide Split, BindTo, AnotherCut, LooseFlags, FormatBool;
    var j := |Front(b)|;
    assert Middle(b)[..j] == Front(b);
    assert j <= |Front(a)| && Middle(a)[..j] == Front(a)[..j];
    SameCut(a, b);
    if j < |Front(a)| {
      FlagsInSecret(a, b);
    }
  }

  lemma FlagsInSecret(a: Instance, b: Instance)
    requires Middle(a) == Middle(b) && |Front(b)| < |Front(a)| && Split(BindTo(b), '|') == Split(BindTo(a), '|')
    ensures LooseFlags(a)
  {
    hide Split, BindTo, FormatBool, IsFlag;
    var j := |Front(b)|;
    var secret, q := Split(a.secret, '|'), j - |Split(BindTo(a), '|')|;
    FormatBoolReads(b.debug);
    FormatBoolReads(b.proxyProtocolListener);
    assert Middle(b)[j] == FormatBool(b.debug) && Middle(b)[j + 1] == FormatBool(b.proxyProtocolListener);
    assert secret[q] == Middle(a)[j];
    if q + 1 < |secret| {
      assert secret[q + 1] == Middle(a)[j + 1];
    }
  }

  lemma SameFields(a: Instance, b: Instance)
    requires Middle(a) == Middle(b) && Back(a) == Back(b) && |Split(a.preferIp, '|')| == 1 && |Split(a.frontingIp, '|')| == 1
    requires |Front(b)| == |Front(a)| && Split(BindTo(b), '|') == Split(BindTo(a), '|')
    ensures FingerprintFields(a) == FingerprintFields(b)
  {
    hide Split, BindTo, FormatBool, Itoa;
    var j, i := |Front(a)|, |Split(BindTo(a), '|')|;
    var m, n := Middle(a), Middle(b);
    assert m[i..j] == Split(a.secret, '|') && n[i..j] == Split(b.secret, '|');
    assert m[j] == FormatBool(a.debug) && n[j] == FormatBool(b.debug);
    assert m[j + 1] == FormatBool(a.proxyProtocolListener) && n[j + 1] == FormatBool(b.proxyProtocolListener);
    assert m[j + 2..j + 3] == Split(a.preferIp, '|') && n[j + 2..j + 3] == Split(b.preferIp, '|');
    assert m[j + 3..] == Split(a.frontingIp, '|') && n[j + 3..] == Split(b.frontingIp, '|');
    SplitIsField(BindTo(a), BindTo(b));
    SplitIsField(a.secret, b.secret);
    SplitIsField(a.preferIp, b.preferIp);
    SplitIsField(a.frontingIp, b.frontingIp);
    var x, y := Back(a), Back(b);
    assert x[0] == y[0] && x[1] == y[1] && x[2] == y[2] && x[3] == y[3];
  }

  // ---------------------------------------------------------------- what a restart is decided on

  lemma FormatBoolInjective(a: bool, b: bool)
    requires FormatBool(a) == FormatBool(b)
    ensures a == b
  {
    assert |FormatBool(a)| == |FormatBool(b)|;
  }

  lemma SameFieldsSameConfig(a: Instance, b: Instance)
    requires FingerprintFields(a) == FingerprintFields(b)
    ensures forall quote, metricsPort :: RenderConfig(quote, a, metricsPort) == RenderConfig(quote, b, metricsPort)
  {
    hide FormatBool, BindTo, HeadText, PreferText, FrontingText, RoutingText;
    var s, t := FingerprintFields(a), FingerprintFields(b);
    assert s[0] == t[0] && s[1] == t[1] && s[2] == t[2] && s[3] == t[3] && s[4] == t[4];
    assert s[5] == t[5] && s[6] == t[6] && s[7] == t[7] && s[8] == t[8] && s[9] == t[9];
    FormatBoolInjective(a.debug, b.debug);
    FormatBoolInjective(a.proxyProtocolListener, b.proxyProtocolListener);
    FormatBoolInjective(a.frontingProxyProtocol, b.frontingProxyProtocol);
    FormatBoolInjective(a.routeThroughXray, b.routeThroughXray);
    ItoaInjective(a.frontingPort, b.frontingPort);
    ItoaInjective(a.xrayRoutePort, b.xrayRoutePort);
  }

  /** What `%q` guarantees: a quoted text shows where it ends. */
  ghost predicate SelfDelimiting(quote: string -> string) {
    forall s, t, u, v :: quote(s) + u == quote(t) + v ==> s == t
  }

  /** Quoting with escapes is such; the one of JSON strings serves as the example. */
  lemma JsonQuoteIsSelfDelimiting()
    ensures SelfDelimiting(Json.Quote)
  {
    hide Json.EscapeAll, Json.ReadString;
    forall s, t, u, v | Json.Quote(s) + u == Json.Quote(t) + v ensures s == t {
      Json.StringReadBack(s, u);
      Json.StringReadBack(t, v);
      assert (Json.Quote(s) + u)[1..] == Json.EscapeAll(s) + "\"" + u;
      assert (Json.Quote(t) + v)[1..] == Json.EscapeAll(t) + "\"" + v;
    }
  }

  /** Whether the fingerprint of `a` stands for one file text only. */
  ghost predicate DecidesConfig(quote: string -> string, a: Instance) {
    forall b, port :: Fingerprint(a) == Fingerprint(b) ==> RenderConfig(quote, a, port) == RenderConfig(quote, b, port)
  }

  function AfterSecret(quote: string -> string, a: Instance, port: int): string {
    "\nbind-to = " + quote(BindTo(a)) + "\n"
    + PreferText(quote, a.debug, a.proxyProtocolListener, a.preferIp)
    + FrontingText(quote, a.frontingIp, a.frontingPort, a.frontingProxyProtocol)
    + RoutingText(a.routeThroughXray, a.xrayRoutePort) + StatsText(port)
  }

  lemma SecretFirst(quote: string -> string, a: Instance, port: int)
    ensures RenderConfig(quote, a, port) == "secret = " + (quote(a.secret) + AfterSecret(quote, a, port))
  {
    hide PreferText, FrontingText, RoutingText, StatsText, BindTo;
  }

  lemma SecretsShow(quote: string -> string, a: Instance, b: Instance, port: int)
    requires SelfDelimiting(quote) && a.secret != b.secret
    ensures RenderConfig(quote, a, port) != RenderConfig(quote, b, port)
  {
    hide RenderConfig, AfterSecret;
    SecretFirst(quote, a, port);
    SecretFirst(quote, b, port);
    DropFirst("secret = ", quote(a.secret) + AfterSecret(quote, a, port), quote(b.secret) + AfterSecret(quote, b, port));
  }

  lemma DropFirst(a: string, b: string, c: string)
    ensures a + b == a + c ==> b == c
  {
    if a + b == a + c {
      assert b == (a + b)[|a|..] == c;
    }
  }

  /** The text up to the preferred address, and the text from there on. */
  function BeforePrefer(quote: string -> string, a: Instance): string {
    HeadText(quote, BindTo(a), a.secret) + PreferText(quote, a.debug, a.proxyProtocolListener, "")
  }

  function FromPrefer(quote: string -> string, a: Instance, port: int): string {
    PreferLine(quote, a.preferIp) + (FrontingText(quote, a.frontingIp, a.frontingPort, a.frontingProxyProtocol)
    + RoutingText(a.routeThroughXray, a.xrayRoutePort) + StatsText(port))
  }

  lemma PreferInside(quote: string -> string, a: Instance, port: int)
    ensures RenderConfig(quote, a, port) == BeforePrefer(quote, a) + FromPrefer(quote, a, port)
  {
    hide HeadText, PreferLine, FrontingText, RoutingText, StatsText, BindTo;
    var head, line := HeadText(quote, BindTo(a), a.secret), PreferLine(quote, a.preferIp);
    var flags := PreferText(quote, a.debug, a.proxyProtocolListener, "");
    FlagsThenLine(quote, a);
    assert head + (flags + line) == head + flags + line;
  }

  lemma FlagsThenLine(quote: string -> string, a: Instance)
    ensures PreferText(quote, a.debug, a.proxyProtocolListener, a.preferIp)
            == PreferText(quote, a.debug, a.proxyProtocolListener, "") + PreferLine(quote, a.preferIp)
  {
    assert PreferLine(quote, "") == "";
    hide PreferLine;
    var flags := (if a.debug then "debug = true\n" else "")
                 + (if a.proxyProtocolListener then "proxy-protocol-listener = true\n" else "");
    assert flags + "" == flags;
  }

  lemma StatsStart(port: int)
    ensures StatsText(port) != "" && StatsText(port)[0] == '\n'
  {
    hide Itoa;
    var head := "\n[stats.prometheus]\n";
    assert head[0] == '\n' && StatsText(port)[0] == head[0];
  }

  lemma RoutingStart(through: bool, port: int)
    ensures RoutingText(through, port) == "" || RoutingText(through, port)[0] == '\n'
  {
    hide Itoa;
    var digits := Itoa(port);
    var head := "\n[network]\nproxies = [\"socks5://127.0.0.1:";
    assert head[0] == '\n';
    if through && port > 0 {
      assert RoutingText(through, port)[0] == (head + digits)[0];
    }
  }

  /** What follows the preferred address starts a new line. */
  lemma FrontingStart(quote: string -> string, ip: string, port: int, proxyProtocol: bool)
    ensures var f := FrontingText(quote, ip, port, proxyProtocol); f == "" || f[0] == '\n'
  {
    hide Itoa;
  }

  lemma RestStarts(quote: string -> string, a: Instance, port: int)
    ensures var rest := FrontingText(quote, a.frontingIp, a.frontingPort, a.frontingProxyProtocol)
                        + RoutingText(a.routeThroughXray, a.xrayRoutePort) + StatsText(port);
            rest != "" && rest[0] == '\n'
  {
    hide FrontingText, RoutingText, StatsText;
    var f, r, t := FrontingText(quote, a.frontingIp, a.frontingPort, a.frontingProxyProtocol),
                   RoutingText(a.routeThroughXray, a.xrayRoutePort), StatsText(port);
    StatsStart(port);
    RoutingStart(a.routeThroughXray, a.xrayRoutePort);
    FrontingStart(quote, a.frontingIp, a.frontingPort, a.frontingProxyProtocol);
    assert f == "" ==> f + r + t == r + t;
    assert f == "" && r == "" ==> r + t == t;
  }

  lemma PrefersShow(quote: string -> string, a: Instance, b: Instance, port: int)
    requires SelfDelimiting(quote) && b == a.(preferIp := b.preferIp, frontingIp := b.frontingIp) && a.preferIp != b.preferIp
    ensures RenderConfig(quote, a, port) != RenderConfig(quote, b, port)
  {
    hide RenderConfig, BeforePrefer, FromPrefer;
    PreferInside(quote, a, port);
    PreferInside(quote, b, port);
    assert BeforePrefer(quote, a) == BeforePrefer(quote, b) by { SameBefore(quote, a, b); }
    DropFirst(BeforePrefer(quote, a), FromPrefer(quote, a, port), FromPrefer(quote, b, port));
    PreferLinesShow(quote, a, b, port);
  }

  lemma SameBefore(quote: string -> string, a: Instance, b: Instance)
    requires b == a.(preferIp := b.preferIp, frontingIp := b.frontingIp)
    ensures BeforePrefer(quote, a) == BeforePrefer(quote, b)
  {
    hide HeadText, PreferText;
    assert BindTo(a) == BindTo(b);
  }

  lemma PreferLinesShow(quote: string -> string, a: Instance, b: Instance, port: int)
    requires SelfDelimiting(quote) && a.preferIp != b.preferIp
    ensures FromPrefer(quote, a, port) != FromPrefer(quote, b, port)
  {
    RestStarts(quote, a, port);
    RestStarts(quote, b, port);
    hide FrontingText, RoutingText, StatsText;
    var s := FrontingText(quote, a.frontingIp, a.frontingPort, a.frontingProxyProtocol)
             + RoutingText(a.routeThroughXray, a.xrayRoutePort) + StatsText(port);
    var t := FrontingText(quote, b.frontingIp, b.frontingPort, b.frontingProxyProtocol)
             + RoutingText(b.routeThroughXray, b.xrayRoutePort) + StatsText(port);
    LinesShow(quote, a.preferIp, b.preferIp, s, t);
  }

  lemma LinesShow(quote: string -> string, x: string, y: string, s: string, t: string)
    requires SelfDelimiting(quote) && x != y && s != "" && t != "" && s[0] == '\n' && t[0] == '\n'
    ensures PreferLine(quote, x) + s != PreferLine(quote, y) + t
  {
    if x == "" {
      assert (PreferLine(quote, x) + s)[0] == '\n' && (PreferLine(quote, y) + t)[0] == 'p';
    } else if y == "" {
      assert (PreferLine(quote, x) + s)[0] == 'p' && (PreferLine(quote, y) + t)[0] == '\n';
    } else {
      var key := "prefer-ip = ";
      Line(key, quote(x), s);
      Line(key, quote(y), t);
      DropFirst(key, quote(x) + ("\n" + s), quote(y) + ("\n" + t));
    }
  }

  lemma Line(key: string, quoted: string, rest: string)
    ensures key + quoted + "\n" + rest == key + (quoted + ("\n" + rest))
  {}

  /** Equal fingerprints stand for equal fields, whatever the other instance is, exactly if there is one reading. */
  lemma FingerprintReadsOneWay(a: Instance)
    ensures (forall b :: Fingerprint(a) == Fingerprint(b) ==> FingerprintFields(a) == FingerprintFields(b)) <==> !Ambiguous(a)
  {
    if Ambiguous(a) {
      var b := AnotherReading(a);
      FieldsShow(a, b);
    } else {
      UnambiguousDecides(s => s, a);
    }
  }

  lemma FieldsShow(a: Instance, b: Instance)
    requires a.secret != b.secret || a.preferIp != b.preferIp
    ensures FingerprintFields(a) != FingerprintFields(b)
  {
    hide BindTo, FormatBool, Itoa;
    var s, t := FingerprintFields(a), FingerprintFields(b);
    assert s[1] == a.secret && t[1] == b.secret && s[4] == a.preferIp && t[4] == b.preferIp;
  }

  lemma AnotherReading(a: Instance) returns (b: Instance)
    requires Ambiguous(a)
    ensures Fingerprint(a) == Fingerprint(b)
    ensures a.secret != b.secret
            || (b == a.(preferIp := b.preferIp, frontingIp := b.frontingIp) && a.preferIp != b.preferIp)
  {
    hide Fingerprint, AnotherCut, LooseFlags;
    if '|' in a.preferIp || '|' in a.frontingIp {
      b := BarsAgain(a);
    } else if AnotherCut(a) {
      b := CutAgain(a);
    } else {
      b := FlagsAgain(a);
    }
  }

  /**
  The fingerprint decides about the file text if it can be read in one way only, and if the quoting
  shows where a text ends, only then.
  */
  lemma FingerprintDecidesConfig(quote: string -> string, a: Instance)
    ensures !Ambiguous(a) ==> DecidesConfig(quote, a)
    ensures SelfDelimiting(quote) ==> (DecidesConfig(quote, a) <==> !Ambiguous(a))
  {
    hide Fingerprint, RenderConfig, Ambiguous, SelfDelimiting;
    if Ambiguous(a) {
      if SelfDelimiting(quote) {
        var b := AnotherReading(a);
        if a.secret != b.secret {
          SecretsShow(quote, a, b, 1);
        } else {
          PrefersShow(quote, a, b, 1);
        }
      }
    } else {
      UnambiguousDecides(quote, a);
    }
  }

  lemma UnambiguousDecides(quote: string -> string, a: Instance)
    requires !Ambiguous(a)
    ensures DecidesConfig(quote, a)
    ensures forall b :: Fingerprint(a) == Fingerprint(b) ==> FingerprintFields(a) == FingerprintFields(b)
  {
    hide Fingerprint, FingerprintFields, RenderConfig, Ambiguous;
    forall b | Fingerprint(a) == Fingerprint(b)
      ensures FingerprintFields(a) == FingerprintFields(b)
           && forall port :: RenderConfig(quote, a, port) == RenderConfig(quote, b, port)
    {
      OneReading(a, b);
      SameFieldsSameConfig(a, b);
    }
  }

  /** Fields without bars are never ambiguous. */
  lemma BarFreeIsUnambiguous(a: Instance)
    requires '|' !in a.listen && '|' !in a.secret && '|' !in a.preferIp && '|' !in a.frontingIp
    ensures !Ambiguous(a)
  {
    ItoaBarFree(a.port);
    assert '|' !in BindTo(a);
    BarsGivePieces(BindTo(a));
    BarsGivePieces(a.secret);
    hide Split, BindTo, IsBindTo;
  }
}
