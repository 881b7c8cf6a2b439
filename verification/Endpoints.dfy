/**
The streams the Clash and JSON renderers build, one per endpoint, by cloning the inbound's stream
settings and writing the endpoint's overrides into the clone (internal/sub/service.go:1323-1389,
internal/sub/clash_service.go:146-209, internal/sub/json_service.go:139-233, 509-542,
internal/sub/host_sub.go:117-151). The maps are objects, so what one endpoint writes another may see.
This module says what the result is; EndpointMaps holds the code that works on the maps.
*/
module Endpoints {
  import opened Text

  /** A decoded JSON value; an object is a reference to a map. */
  datatype Val = Null | Bool(b: bool) | Num(digits: string) | Str(text: string) | List(items: seq<Val>) | Obj(obj: GoMap)

  class GoMap {
    var entries: map<string, Val>

    constructor (entries: map<string, Val>)
      ensures this.entries == entries
    {
      this.entries := entries;
    }
  }

  /**
  An endpoint (an externalProxy entry or a host) as its readers see it: empty where a field is
  absent, empty or of the wrong type. `sockopt` and `finalMask` are the decoded JSON objects.
  */
  datatype Endpoint = Endpoint(
    forceTls: string, isHost: bool, sni: string, fingerprint: string, alpn: seq<Val>, pins: seq<Val>,
    echConfigList: string, allowInsecure: bool, sockopt: map<string, Val>, finalMask: map<string, Val>)

  datatype Renderer = Json | Clash

  // ---------------------------------------------------------------- streams as values

  /** The part of a stream the renderers may touch, as a tree; all else is left as it is. */
  datatype Tree = Leaf(v: Val) | Branch(kids: map<string, Tree>)

  type View = map<string, Tree>

  predicate HasMap(view: View, key: string) { key in view && view[key].Branch? }

  function Kids(view: View, key: string): map<string, Tree> { if HasMap(view, key) then view[key].kids else map[] }

  predicate HasText(view: View, key: string, text: string) { key in view && view[key] == Leaf(Str(text)) }

  const MASKS: set<string> := {"tcp", "udp"}

  /** `mergeFinalMask` on the fields of two masks: mask lists are joined, `quicParams` is kept. */
  function MergedMask(base: map<string, Val>, extra: map<string, Val>): map<string, Val> {
    KeptMask(base) + MaskAdded(KeptMask(base), extra)
  }

  function MaskAdded(kept: map<string, Val>, extra: map<string, Val>): map<string, Val>
    requires forall key :: key in kept && key in MASKS ==> kept[key].List?
  {
    map key | key in extra && Taken(extra, key) && !(key == "quicParams" && key in kept) ::
      if key in MASKS then List((if key in kept then kept[key].items else []) + extra[key].items) else extra[key]
  }

  /** What stays of the stream's own mask: everything but malformed mask lists. */
  function KeptMask(base: map<string, Val>): (kept: map<string, Val>)
    ensures forall key :: key in kept && key in MASKS ==> kept[key].List?
  {
    map key | key in base && (key in MASKS ==> base[key].List?) :: base[key]
  }

  predicate Taken(extra: map<string, Val>, key: string)
    requires key in extra
  {
    key in MASKS ==> extra[key].List? && extra[key].items != []
  }

  function Leaves(fields: map<string, Val>): map<string, Tree> { map k | k in fields :: Leaf(fields[k]) }

  /** The values of a branch whose children are leaves. */
  function Fields(kids: map<string, Tree>): map<string, Val> {
    map k | k in kids && kids[k].Leaf? :: kids[k].v
  }

  function Forced(view: View, forceTls: string, renderer: Renderer): View {
    if forceTls == "tls" && !HasText(view, "security", "tls") then
      view["security" := Leaf(Str("tls"))]["tlsSettings" := Branch(map[])]
    else if forceTls == "none" && !HasText(view, "security", "none") then
      view["security" := Leaf(Str("none"))]
        - (if renderer.Clash? then {"tlsSettings", "realitySettings"} else {"tlsSettings"})
    else view
  }

  function Asked(asked: bool, key: string, v: Val): map<string, Tree> {
    if asked then map[key := Leaf(v)] else map[]
  }

  /** The nested settings an endpoint asks for. */
  function SettingsWanted(ep: Endpoint): map<string, Tree> {
    Asked(ep.fingerprint != "", "fingerprint", Str(ep.fingerprint))
    + Asked(ep.pins != [], "pinnedPeerCertSha256", List(ep.pins))
    + Asked(ep.echConfigList != "", "echConfigList", Str(ep.echConfigList))
    + Asked(ep.allowInsecure, "allowInsecure", Bool(true))
  }

  function TlsWanted(ep: Endpoint): map<string, Tree> {
    Asked(ep.sni != "", "serverName", Str(ep.sni))
    + Asked(ep.fingerprint != "", "fingerprint", Str(ep.fingerprint))
    + Asked(ep.alpn != [], "alpn", List(ep.alpn))
  }

  /** TLS settings with plain fields and fields of their nested settings written. */
  function Written(tls: map<string, Tree>, plain: map<string, Tree>, nested: map<string, Tree>): map<string, Tree> {
    if nested == map[] then tls + plain
    else (tls + plain)["settings" := Branch(Kids(tls, "settings") + nested)]
  }

  function WithTls(view: View, ep: Endpoint): View {
    if !HasText(view, "security", "tls") then view
    else view["tlsSettings" := Branch(Written(Kids(view, "tlsSettings"), TlsWanted(ep), SettingsWanted(ep)))]
  }

  function WithSockopt(view: View, ep: Endpoint): View {
    if ep.sockopt == map[] then view else view["sockopt" := Branch(Leaves(ep.sockopt))]
  }

  function WithFinalMask(view: View, ep: Endpoint): View {
    var merged := MergedMask(Fields(Kids(view, "finalmask")), ep.finalMask);
    if ep.finalMask == map[] || merged == map[] then view else view["finalmask" := Branch(Leaves(merged))]
  }

  /** The server name of a reality stream replaced in both forms. */
  function WithSni(view: View, sni: string): View {
    view["realitySettings" :=
      Branch(Kids(view, "realitySettings")["serverName" := Leaf(Str(sni))]["serverNames" := Leaf(List([Str(sni)]))])]
  }

  predicate OverridesSni(view: View, ep: Endpoint) {
    ep.isHost && ep.sni != "" && HasText(view, "security", "reality") && HasMap(view, "realitySettings")
  }

  function WithHost(view: View, ep: Endpoint): View {
    var masked := WithFinalMask(WithSockopt(view, ep), ep);
    if OverridesSni(masked, ep) then WithSni(masked, ep.sni) else masked
  }

  /** The stream of one endpoint; `external` is false for the synthetic endpoint of a plain inbound. */
  function Built(base: View, ep: Endpoint, external: bool, renderer: Renderer): View {
    var forced := Forced(base, ep.forceTls, renderer);
    WithHost(if external then WithTls(forced, ep) else forced, ep)
  }

  // ---------------------------------------------------------------- what endpoints do to the base

  /** The endpoint writes through the reality settings its clone shares with the base. */
  predicate WritesBase(base: View, ep: Endpoint) {
    ep.forceTls != "tls" && ep.forceTls != "none" && OverridesSni(base, ep)
  }

  function BaseAfter(base: View, ep: Endpoint): View { if WritesBase(base, ep) then WithSni(base, ep.sni) else base }

  function BaseAfterAll(base: View, eps: seq<Endpoint>): View {
    if eps == [] then base else BaseAfter(BaseAfterAll(base, eps[..|eps| - 1]), eps[|eps| - 1])
  }

  /** The SNI of the last endpoint that wrote the base, or "". */
  function LastSni(base: View, eps: seq<Endpoint>): string {
    if eps == [] then ""
    else if WritesBase(base, eps[|eps| - 1]) then eps[|eps| - 1].sni
    else LastSni(base, eps[..|eps| - 1])
  }

  lemma WithSniTwice(view: View, a: string, b: string)
    ensures WithSni(WithSni(view, a), b) == WithSni(view, b)
  {
    var kids := Kids(view, "realitySettings");
    assert kids["serverName" := Leaf(Str(a))]["serverNames" := Leaf(List([Str(a)]))]
               ["serverName" := Leaf(Str(b))]["serverNames" := Leaf(List([Str(b)]))]
        == kids["serverName" := Leaf(Str(b))]["serverNames" := Leaf(List([Str(b)]))];
  }

  lemma WritesBaseStays(base: View, sni: string, ep: Endpoint)
    requires HasMap(base, "realitySettings")
    ensures WritesBase(WithSni(base, sni), ep) == WritesBase(base, ep)
  {
  }

  lemma {:induction false} BaseAfterAllIs(base: View, eps: seq<Endpoint>)
    ensures var sni := LastSni(base, eps);
            BaseAfterAll(base, eps) == (if sni == "" then base else WithSni(base, sni))
    ensures LastSni(base, eps) != "" ==> HasMap(base, "realitySettings") && HasText(base, "security", "reality")
  {
    hide WithSni;
    if eps != [] {
      var before, ep := eps[..|eps| - 1], eps[|eps| - 1];
      BaseAfterAllIs(base, before);
      var sni := LastSni(base, before);
      if sni != "" {
        WritesBaseStays(base, sni, ep);
        WithSniTwice(base, sni, ep.sni);
      }
    }
  }

  // ---------------------------------------------------------------- isolation

  lemma ForcedKeepsReality(base: View, sni: string, forceTls: string, renderer: Renderer)
    requires HasText(base, "security", "reality") && HasMap(base, "realitySettings")
    ensures var forced := Forced(base, forceTls, renderer);
            if forceTls == "none" && renderer.Clash? then Forced(WithSni(base, sni), forceTls, renderer) == forced
            else HasMap(forced, "realitySettings") && Forced(WithSni(base, sni), forceTls, renderer) == WithSni(forced, sni)
                 && forced["realitySettings"] == base["realitySettings"]
    ensures HasText(Forced(base, forceTls, renderer), "security", "reality")
            <==> forceTls != "tls" && forceTls != "none"
  {
    var forced := Forced(base, forceTls, renderer);
    var other := Forced(WithSni(base, sni), forceTls, renderer);
    if forceTls == "none" {
      if renderer.Clash? {
        assert other == forced;
      } else {
        assert other == WithSni(forced, sni);
      }
    } else if forceTls == "tls" {
      assert other == WithSni(forced, sni);
    }
  }

  lemma TlsKeepsReality(view: View, sni: string, ep: Endpoint)
    ensures WithTls(WithSni(view, sni), ep) == WithSni(WithTls(view, ep), sni)
    ensures SameReality(WithTls(view, ep), view)
  {
    hide TlsWanted, SettingsWanted, Written;
    assert Kids(WithSni(view, sni), "tlsSettings") == Kids(view, "tlsSettings");
  }

  lemma SockoptKeepsReality(view: View, sni: string, ep: Endpoint)
    ensures WithSockopt(WithSni(view, sni), ep) == WithSni(WithSockopt(view, ep), sni)
    ensures SameReality(WithSockopt(view, ep), view)
  {
    hide Leaves;
  }

  lemma FinalMaskKeepsReality(view: View, sni: string, ep: Endpoint)
    ensures WithFinalMask(WithSni(view, sni), ep) == WithSni(WithFinalMask(view, ep), sni)
    ensures SameReality(WithFinalMask(view, ep), view)
  {
    hide MergedMask, Fields, Leaves;
    assert Kids(WithSni(view, sni), "finalmask") == Kids(view, "finalmask");
  }

  /** Two streams with the same security and the same reality settings. */
  predicate SameReality(a: View, b: View) {
    && Kids(a, "realitySettings") == Kids(b, "realitySettings")
    && HasMap(a, "realitySettings") == HasMap(b, "realitySettings")
    && HasText(a, "security", "reality") == HasText(b, "security", "reality")
  }

  predicate ShowsSni(view: View, sni: string) {
    var kids := Kids(view, "realitySettings");
    && "serverName" in kids && kids["serverName"] == Leaf(Str(sni))
    && "serverNames" in kids && kids["serverNames"] == Leaf(List([Str(sni)]))
  }

  lemma WithSniChanges(view: View, sni: string)
    requires HasMap(view, "realitySettings")
    ensures WithSni(view, sni) == view <==> ShowsSni(view, sni)
  {
    var kids := Kids(view, "realitySettings");
    var changed := kids["serverName" := Leaf(Str(sni))]["serverNames" := Leaf(List([Str(sni)]))];
    assert WithSni(view, sni)["realitySettings"] == Branch(changed);
    if ShowsSni(view, sni) {
      assert changed == kids;
    } else {
      assert changed != kids by {
        assert changed["serverName"] == Leaf(Str(sni)) && changed["serverNames"] == Leaf(List([Str(sni)]));
      }
    }
  }

  /** What a changed server name in the base does to the stream of an endpoint. */
  lemma BuiltWithSni(base: View, sni: string, ep: Endpoint, external: bool, renderer: Renderer)
    requires HasText(base, "security", "reality") && HasMap(base, "realitySettings")
    ensures var built := Built(base, ep, external, renderer);
            var other := Built(WithSni(base, sni), ep, external, renderer);
            if WritesBase(base, ep) || (ep.forceTls == "none" && renderer.Clash?) then other == built
            else HasMap(built, "realitySettings") && other == WithSni(built, sni)
                 && Kids(built, "realitySettings") == Kids(base, "realitySettings")
  {
    hide Forced, WithTls, WithFinalMask, WithSockopt, WithSni;
    var forced := Forced(base, ep.forceTls, renderer);
    ForcedKeepsReality(base, sni, ep.forceTls, renderer);
    TlsKeepsReality(forced, sni, ep);
    var tls := if external then WithTls(forced, ep) else forced;
    SockoptKeepsReality(tls, sni, ep);
    FinalMaskKeepsReality(WithSockopt(tls, ep), sni, ep);
    var masked := WithFinalMask(WithSockopt(tls, ep), ep);
    if !(ep.forceTls == "none" && renderer.Clash?) {
      SameOverride(masked, sni, ep);
      WithSniTwice(masked, sni, ep.sni);
    }
  }

  lemma SameOverride(view: View, sni: string, ep: Endpoint)
    requires HasMap(view, "realitySettings")
    ensures OverridesSni(WithSni(view, sni), ep) == OverridesSni(view, ep)
  {
  }

  /**
  The stream of an endpoint is the one it would get if it were the only endpoint, if and only if
  no earlier endpoint wrote a server name through the shared reality settings, or the endpoint
  writes its own, or drops them, or the inbound had that very name to begin with.
  */
  lemma IsolatedExactly(base: View, earlier: seq<Endpoint>, ep: Endpoint, external: bool, renderer: Renderer)
    ensures Built(BaseAfterAll(base, earlier), ep, external, renderer) == Built(base, ep, external, renderer)
            <==> (|| LastSni(base, earlier) == "" || WritesBase(base, ep)
                  || (ep.forceTls == "none" && renderer.Clash?) || ShowsSni(base, LastSni(base, earlier)))
  {
    hide Built, WithSni;
    var sni := LastSni(base, earlier);
    BaseAfterAllIs(base, earlier);
    if sni != "" {
      BuiltWithSni(base, sni, ep, external, renderer);
      if HasMap(Built(base, ep, external, renderer), "realitySettings") {
        WithSniChanges(Built(base, ep, external, renderer), sni);
      }
    }
  }

  /** A base stream whose security is not reality is never written, so endpoints are isolated. */
  lemma {:induction false} NotRealityNotWritten(base: View, eps: seq<Endpoint>)
    requires !HasText(base, "security", "reality")
    ensures BaseAfterAll(base, eps) == base
  {
    if eps != [] {
      NotRealityNotWritten(base, eps[..|eps| - 1]);
    }
  }
}
