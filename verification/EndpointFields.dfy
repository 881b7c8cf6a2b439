/**
What the stream of an endpoint holds, field by field: the inbound's own fields, except where the
endpoint says something else (internal/sub/clash_service.go:169-207, service.go:1341-1389,
host_sub.go:121-151, json_service.go:509-542). Module Endpoints says how the stream is built; here
is what is in it.
*/
module EndpointFields {
  import opened Text
  import opened Endpoints

  function At(fields: map<string, Tree>, key: string): Option<Tree> { if key in fields then Some(fields[key]) else None }

  /** The given value, if there is one, or what was there. */
  function Given(given: bool, v: Val, was: Option<Tree>): Option<Tree> { if given then Some(Leaf(v)) else was }

  // ---------------------------------------------------------------- what should be there

  function SecurityOf(base: View, ep: Endpoint): Option<Tree> {
    if ep.forceTls == "tls" || ep.forceTls == "none" then Some(Leaf(Str(ep.forceTls))) else At(base, "security")
  }

  /** The security is switched, so the settings of the old one go. */
  predicate Switched(base: View, ep: Endpoint) {
    (ep.forceTls == "tls" || ep.forceTls == "none") && At(base, "security") != Some(Leaf(Str(ep.forceTls)))
  }

  /** The TLS settings before the endpoint's own: empty after a switch to TLS, gone after one to none. */
  function TlsBefore(base: View, ep: Endpoint): Option<Tree> {
    if !Switched(base, ep) then At(base, "tlsSettings") else if ep.forceTls == "tls" then Some(Branch(map[])) else None
  }

  function KidsOf(t: Option<Tree>): map<string, Tree> { if t.Some? && t.value.Branch? then t.value.kids else map[] }

  predicate AsksNested(ep: Endpoint) {
    ep.fingerprint != "" || ep.pins != [] || ep.echConfigList != "" || ep.allowInsecure
  }

  /** The TLS settings of an endpoint's stream: server name, ALPN and fingerprint, and its nested settings. */
  ghost predicate TlsSays(before: map<string, Tree>, ep: Endpoint, after: map<string, Tree>) {
    && At(after, "serverName") == Given(ep.sni != "", Str(ep.sni), At(before, "serverName"))
    && At(after, "alpn") == Given(ep.alpn != [], List(ep.alpn), At(before, "alpn"))
    && At(after, "fingerprint") == Given(ep.fingerprint != "", Str(ep.fingerprint), At(before, "fingerprint"))
    && (forall key :: key !in {"serverName", "alpn", "fingerprint", "settings"} ==> At(after, key) == At(before, key))
    && (if AsksNested(ep) then
          At(after, "settings").Some? && At(after, "settings").value.Branch?
          && NestedSays(KidsOf(At(before, "settings")), ep, KidsOf(At(after, "settings")))
        else At(after, "settings") == At(before, "settings"))
  }

  ghost predicate NestedSays(before: map<string, Tree>, ep: Endpoint, after: map<string, Tree>) {
    && At(after, "fingerprint") == Given(ep.fingerprint != "", Str(ep.fingerprint), At(before, "fingerprint"))
    && At(after, "pinnedPeerCertSha256") == Given(ep.pins != [], List(ep.pins), At(before, "pinnedPeerCertSha256"))
    && At(after, "echConfigList") == Given(ep.echConfigList != "", Str(ep.echConfigList), At(before, "echConfigList"))
    && At(after, "allowInsecure") == Given(ep.allowInsecure, Bool(true), At(before, "allowInsecure"))
    && forall key :: key !in {"fingerprint", "pinnedPeerCertSha256", "echConfigList", "allowInsecure"} ==>
         At(after, key) == At(before, key)
  }

  /** The mask list under a key, empty without one. */
  function MaskList(v: Option<Tree>): seq<Val> {
    if v.Some? && v.value.Leaf? && v.value.v.List? then v.value.v.items else []
  }

  function ExtraList(mask: map<string, Val>, key: string): seq<Val> {
    if key in mask && mask[key].List? then mask[key].items else []
  }

  predicate IsList(v: Option<Tree>) { v.Some? && v.value.Leaf? && v.value.v.List? }

  /** What is under a key of two joined masks: lists base first, `quicParams` of the base, other keys of the endpoint. */
  function MaskAt(before: map<string, Tree>, mask: map<string, Val>, key: string): Option<Tree> {
    var was, given := At(before, key), Given(key in mask, FieldOf(mask, key), None);
    if key == "tcp" || key == "udp" then
      if IsList(was) || ExtraList(mask, key) != [] then Some(Leaf(List(MaskList(was) + ExtraList(mask, key)))) else None
    else if key == "quicParams" then (if was.Some? then was else given)
    else if given.Some? then given else was
  }

  ghost predicate MaskSays(before: map<string, Tree>, mask: map<string, Val>, after: map<string, Tree>) {
    forall key :: At(after, key) == MaskAt(before, mask, key)
  }

  function FieldOf(fields: map<string, Val>, key: string): Val { if key in fields then fields[key] else Null }

  /** All values are leaves, as in the maps of a stream that are not descended into further. */
  ghost predicate Flat(fields: map<string, Tree>) { forall key :: key in fields ==> fields[key].Leaf? }

  /** The stream has reality settings, and the host names a server for them. */
  predicate NamesReality(base: View, ep: Endpoint) {
    && ep.isHost && ep.sni != "" && SecurityOf(base, ep) == Some(Leaf(Str("reality")))
    && At(base, "realitySettings").Some? && At(base, "realitySettings").value.Branch?
  }

  predicate DropsReality(base: View, ep: Endpoint, renderer: Renderer) {
    Switched(base, ep) && ep.forceTls == "none" && renderer.Clash?
  }

  const OWN_KEYS: set<string> := {"security", "tlsSettings", "realitySettings", "sockopt", "finalmask"}

  /** Everything an endpoint's stream says. */
  ghost predicate StreamSays(base: View, ep: Endpoint, external: bool, renderer: Renderer, stream: View) {
    && At(stream, "security") == SecurityOf(base, ep)
    && (if external && SecurityOf(base, ep) == Some(Leaf(Str("tls"))) then
          At(stream, "tlsSettings").Some? && At(stream, "tlsSettings").value.Branch?
          && TlsSays(KidsOf(TlsBefore(base, ep)), ep, KidsOf(At(stream, "tlsSettings")))
        else At(stream, "tlsSettings") == TlsBefore(base, ep))
    && (if ep.sockopt == map[] then At(stream, "sockopt") == At(base, "sockopt")
        else At(stream, "sockopt").Some? && At(stream, "sockopt").value.Branch?
             && forall key :: At(KidsOf(At(stream, "sockopt")), key) == Given(key in ep.sockopt, FieldOf(ep.sockopt, key), None))
    && (if MaskWritten(base, ep) then
          At(stream, "finalmask").Some? && At(stream, "finalmask").value.Branch?
          && MaskSays(KidsOf(At(base, "finalmask")), ep.finalMask, KidsOf(At(stream, "finalmask")))
        else At(stream, "finalmask") == At(base, "finalmask"))
    && (if NamesReality(base, ep) then
          At(stream, "realitySettings").Some? && At(stream, "realitySettings").value.Branch?
          && RealitySays(KidsOf(At(base, "realitySettings")), ep.sni, KidsOf(At(stream, "realitySettings")))
        else At(stream, "realitySettings") == if DropsReality(base, ep, renderer) then None else At(base, "realitySettings"))
    && forall key :: key !in OWN_KEYS ==> At(stream, key) == At(base, key)
  }

  /** The endpoint has a mask, and the joined one is not empty. */
  ghost predicate MaskWritten(base: View, ep: Endpoint) {
    ep.finalMask != map[] && exists key :: MaskAt(KidsOf(At(base, "finalmask")), ep.finalMask, key).Some?
  }

  ghost predicate RealitySays(before: map<string, Tree>, sni: string, after: map<string, Tree>) {
    && At(after, "serverName") == Some(Leaf(Str(sni)))
    && At(after, "serverNames") == Some(Leaf(List([Str(sni)])))
    && forall key :: key !in {"serverName", "serverNames"} ==> At(after, key) == At(before, key)
  }

  // ---------------------------------------------------------------- layer by layer

  lemma ForcedSays(base: View, ep: Endpoint, renderer: Renderer)
    ensures var forced := Forced(base, ep.forceTls, renderer);
            && At(forced, "security") == SecurityOf(base, ep) && At(forced, "tlsSettings") == TlsBefore(base, ep)
            && At(forced, "realitySettings") == (if DropsReality(base, ep, renderer) then None else At(base, "realitySettings"))
            && forall key :: key !in {"security", "tlsSettings", "realitySettings"} ==> At(forced, key) == At(base, key)
  {
  }

  lemma NestedAre(ep: Endpoint)
    ensures var wanted := SettingsWanted(ep);
            && At(wanted, "fingerprint") == Given(ep.fingerprint != "", Str(ep.fingerprint), None)
            && At(wanted, "pinnedPeerCertSha256") == Given(ep.pins != [], List(ep.pins), None)
            && At(wanted, "echConfigList") == Given(ep.echConfigList != "", Str(ep.echConfigList), None)
            && At(wanted, "allowInsecure") == Given(ep.allowInsecure, Bool(true), None)
            && forall key :: key in wanted ==> key in {"fingerprint", "pinnedPeerCertSha256", "echConfigList", "allowInsecure"}
  {
  }

  lemma NestedIs(before: map<string, Tree>, ep: Endpoint)
    ensures NestedSays(before, ep, before + SettingsWanted(ep))
    ensures SettingsWanted(ep) == map[] <==> !AsksNested(ep)
  {
    hide SettingsWanted;
    NestedAre(ep);
    var wanted := SettingsWanted(ep);
    forall key ensures At(before + wanted, key) == if At(wanted, key).Some? then At(wanted, key) else At(before, key) {}
    if !AsksNested(ep) {
      assert forall key :: key !in wanted;
    }
  }

  lemma PlainIs(ep: Endpoint)
    ensures var wanted := TlsWanted(ep);
            && At(wanted, "serverName") == Given(ep.sni != "", Str(ep.sni), None)
            && At(wanted, "alpn") == Given(ep.alpn != [], List(ep.alpn), None)
            && At(wanted, "fingerprint") == Given(ep.fingerprint != "", Str(ep.fingerprint), None)
            && forall key :: key in wanted ==> key in {"serverName", "alpn", "fingerprint"}
  {
  }

  lemma WrittenSays(before: map<string, Tree>, ep: Endpoint)
    ensures TlsSays(before, ep, Written(before, TlsWanted(ep), SettingsWanted(ep)))
  {
    hide TlsWanted, SettingsWanted, NestedSays, AsksNested;
    var plain, nested := TlsWanted(ep), SettingsWanted(ep);
    PlainIs(ep);
    NestedIs(Kids(before, "settings"), ep);
    var after := Written(before, plain, nested);
    assert forall key :: key != "settings" ==> At(after, key) == At(before + plain, key);
    assert At(before + plain, "settings") == At(before, "settings");
    assert KidsOf(At(before, "settings")) == Kids(before, "settings");
  }

  lemma TlsLayerSays(forced: View, ep: Endpoint)
    ensures var v := WithTls(forced, ep);
            && (forall key :: key != "tlsSettings" ==> At(v, key) == At(forced, key))
            && (if At(forced, "security") == Some(Leaf(Str("tls"))) then
                  At(v, "tlsSettings").Some? && At(v, "tlsSettings").value.Branch?
                  && TlsSays(KidsOf(At(forced, "tlsSettings")), ep, KidsOf(At(v, "tlsSettings")))
                else v == forced)
  {
    hide TlsSays, Written, TlsWanted, SettingsWanted;
    WrittenSays(Kids(forced, "tlsSettings"), ep);
    assert KidsOf(At(forced, "tlsSettings")) == Kids(forced, "tlsSettings");
  }

  lemma SockoptLayerSays(view: View, ep: Endpoint)
    ensures var v := WithSockopt(view, ep);
            && (forall key :: key != "sockopt" ==> At(v, key) == At(view, key))
            && (if ep.sockopt == map[] then v == view
                else At(v, "sockopt").Some? && At(v, "sockopt").value.Branch?
                     && forall key :: At(KidsOf(At(v, "sockopt")), key) == Given(key in ep.sockopt, FieldOf(ep.sockopt, key), None))
  {
  }

  lemma LeavesAt(fields: map<string, Val>, key: string)
    ensures At(Leaves(fields), key) == Given(key in fields, FieldOf(fields, key), None)
  {
  }

  lemma FlatAt(before: map<string, Tree>, key: string)
    requires Flat(before)
    ensures At(before, key) == Given(key in Fields(before), FieldOf(Fields(before), key), None)
  {
  }

  /** One key of two merged masks. */
  lemma MergedAt(base: map<string, Val>, mask: map<string, Val>, key: string)
    ensures var merged := MergedMask(base, mask);
            Given(key in merged, FieldOf(merged, key), None) == MaskAt(Leaves(base), mask, key)
  {
    LeavesAt(base, key);
    var kept := KeptMask(base);
    var added := MaskAdded(kept, mask);
    assert key in MergedMask(base, mask) <==> key in kept || key in added;
    hide Leaves;
    var none: seq<Val> := [];
    assert none + ExtraList(mask, key) == ExtraList(mask, key);
    assert ExtraList(base, key) + none == ExtraList(base, key);
  }

  lemma MergedSays(before: map<string, Tree>, mask: map<string, Val>, key: string)
    requires Flat(before)
    ensures At(Leaves(MergedMask(Fields(before), mask)), key) == MaskAt(before, mask, key)
  {
    FlatAt(before, key);
    LeavesAt(Fields(before), key);
    MergedAt(Fields(before), mask, key);
    LeavesAt(MergedMask(Fields(before), mask), key);
    hide MergedMask, Fields, Leaves;
  }

  lemma MaskLayerSays(view: View, ep: Endpoint)
    requires Flat(KidsOf(At(view, "finalmask")))
    ensures var v := WithFinalMask(view, ep);
            && (forall key :: key != "finalmask" ==> At(v, key) == At(view, key))
            && (if MaskWritten(view, ep) then
                  At(v, "finalmask").Some? && At(v, "finalmask").value.Branch?
                  && MaskSays(KidsOf(At(view, "finalmask")), ep.finalMask, KidsOf(At(v, "finalmask")))
                else v == view)
  {
    hide MergedMask, Fields, MaskAt;
    var before := Kids(view, "finalmask");
    var merged := MergedMask(Fields(before), ep.finalMask);
    assert KidsOf(At(view, "finalmask")) == before;
    forall key ensures At(Leaves(merged), key) == MaskAt(before, ep.finalMask, key) {
      MergedSays(before, ep.finalMask, key);
    }
    if merged != map[] {
      var key :| key in merged;
      assert At(Leaves(merged), key).Some?;
    }
  }

  lemma SniLayerSays(view: View, ep: Endpoint)
    ensures var v := if OverridesSni(view, ep) then WithSni(view, ep.sni) else view;
            && (forall key :: key != "realitySettings" ==> At(v, key) == At(view, key))
            && (OverridesSni(view, ep) <==>
                  && ep.isHost && ep.sni != "" && At(view, "security") == Some(Leaf(Str("reality")))
                  && At(view, "realitySettings").Some? && At(view, "realitySettings").value.Branch?)
            && (if OverridesSni(view, ep) then
                  At(v, "realitySettings").Some? && At(v, "realitySettings").value.Branch?
                  && RealitySays(KidsOf(At(view, "realitySettings")), ep.sni, KidsOf(At(v, "realitySettings")))
                else v == view)
  {
  }

  // ---------------------------------------------------------------- main result

  /**
  The stream built for an endpoint says exactly what the endpoint gives, and what the inbound says
  everywhere else: security, every TLS field and nested setting, socket options, masks and the
  server name of a reality stream.
  */
  lemma BuiltSaysExactly(base: View, ep: Endpoint, external: bool, renderer: Renderer)
    requires Flat(KidsOf(At(base, "finalmask")))
    ensures StreamSays(base, ep, external, renderer, Built(base, ep, external, renderer))
  {
    hide Forced, WithTls, WithSockopt, WithFinalMask, WithSni, TlsSays, MaskSays, RealitySays, OverridesSni, Switched, MaskAt, Flat;
    var forced := Forced(base, ep.forceTls, renderer);
    var tls := if external then WithTls(forced, ep) else forced;
    var opened_ := WithSockopt(tls, ep);
    var masked := WithFinalMask(opened_, ep);
    ForcedSays(base, ep, renderer);
    TlsLayerSays(forced, ep);
    SockoptLayerSays(tls, ep);
    MaskLayerSays(opened_, ep);
    SniLayerSays(masked, ep);
  }

  /** The same of what earlier endpoints left of the base. */
  lemma LaterSaysExactly(base: View, earlier: seq<Endpoint>, ep: Endpoint, external: bool, renderer: Renderer)
    requires Flat(KidsOf(At(base, "finalmask")))
    ensures var left := BaseAfterAll(base, earlier); StreamSays(left, ep, external, renderer, Built(left, ep, external, renderer))
  {
    hide StreamSays, Built;
    BaseAfterAllIs(base, earlier);
    var left := BaseAfterAll(base, earlier);
    assert "finalmask" != "realitySettings";
    assert At(left, "finalmask") == At(base, "finalmask");
    BuiltSaysExactly(left, ep, external, renderer);
  }
}
