/**
The endpoint loops of the Clash and JSON renderers on the maps themselves: clone the stream, write
into the clone, render. What is written where is exactly what Endpoints says.
*/
module EndpointMaps {
  import opened Text
  import opened Endpoints
  import EndpointFields

  // ---------------------------------------------------------------- reading maps

  /** The map under a key, if there is one. */
  function Kid(m: GoMap?, key: string): GoMap?
    reads m
  {
    if m != null && key in m.entries && m.entries[key].Obj? then m.entries[key].obj else null
  }

  function Tls(m: GoMap): GoMap?
    reads m
  {
    Kid(m, "tlsSettings")
  }

  function Settings(m: GoMap): GoMap?
    reads m, Tls(m)
  {
    Kid(Tls(m), "settings")
  }

  /** The maps below a stream are different objects, as decoding JSON makes them. */
  ghost predicate Apart(m: GoMap)
    reads m, Tls(m)
  {
    var t, s, r := Tls(m), Settings(m), Kid(m, "realitySettings");
    var k, f := Kid(m, "sockopt"), Kid(m, "finalmask");
    && t != m && s != m && r != m && k != m && f != m
    && (s != null ==> s != t && s != r && s != k && s != f)
    && (t != null ==> t != r && t != k && t != f)
    && (r != null ==> r != k && r != f)
  }

  function Flat(v: Val): Tree
    reads if v.Obj? then {v.obj} else {}
  {
    if v.Obj? then Branch(Leaves(v.obj.entries)) else Leaf(v)
  }

  function TlsView(t: GoMap): map<string, Tree>
    reads t, Kid(t, "settings")
  {
    map j | j in t.entries :: if j == "settings" then Flat(t.entries[j]) else Leaf(t.entries[j])
  }

  function Entries(m: GoMap?): map<string, Val>
    reads m
  {
    if m == null then map[] else m.entries
  }

  /** The stream without its TLS settings, from its own fields and those of the maps below it. */
  function Rest(entries: map<string, Val>, reality: map<string, Val>, sockopt: map<string, Val>,
                finalmask: map<string, Val>): View
  {
    map k | k in entries && k != "tlsSettings" ::
      if !entries[k].Obj? then Leaf(entries[k])
      else if k == "realitySettings" then Branch(Leaves(reality))
      else if k == "sockopt" then Branch(Leaves(sockopt))
      else if k == "finalmask" then Branch(Leaves(finalmask))
      else Leaf(entries[k])
  }

  function RestView(m: GoMap): View
    reads m, Kid(m, "realitySettings"), Kid(m, "sockopt"), Kid(m, "finalmask")
  {
    Rest(m.entries, Entries(Kid(m, "realitySettings")), Entries(Kid(m, "sockopt")), Entries(Kid(m, "finalmask")))
  }

  function ViewOf(m: GoMap): View
    reads m, Tls(m), Settings(m), Kid(m, "realitySettings"), Kid(m, "sockopt"), Kid(m, "finalmask")
  {
    if "tlsSettings" !in m.entries then RestView(m)
    else RestView(m)["tlsSettings" :=
      if m.entries["tlsSettings"].Obj? then Branch(TlsView(m.entries["tlsSettings"].obj))
      else Leaf(m.entries["tlsSettings"])]
  }

  // ---------------------------------------------------------------- cloning

  /** `cloneMap`. */
  method CloneMap(src: GoMap) returns (dst: GoMap)
    ensures fresh(dst) && dst.entries == src.entries
  {
    dst := new GoMap(src.entries);
  }

  method CloneTls(ts: GoMap) returns (clonedTs: GoMap)
    ensures fresh(clonedTs) && TlsView(clonedTs) == TlsView(ts)
    ensures var inner := Kid(clonedTs, "settings"); inner != null ==> fresh(inner) && inner != clonedTs
  {
    clonedTs := CloneMap(ts);
    if "settings" in clonedTs.entries && clonedTs.entries["settings"].Obj? {
      var inner := CloneMap(clonedTs.entries["settings"].obj);
      clonedTs.entries := clonedTs.entries["settings" := Obj(inner)];
    }
  }

  /** `cloneStreamForExternalProxy`: the TLS maps are copied, everything else is shared. */
  method CloneStreamForExternalProxy(stream: GoMap) returns (out: GoMap)
    ensures fresh(out) && (Tls(out) != null ==> fresh(Tls(out))) && (Settings(out) != null ==> fresh(Settings(out)))
    ensures Tls(out) != out && Settings(out) != out && (Settings(out) != null ==> Settings(out) != Tls(out))
    ensures forall key :: key != "tlsSettings" ==> Kid(out, key) == Kid(stream, key)
    ensures ViewOf(out) == ViewOf(stream)
  {
    hide TlsView, Rest;
    out := CloneMap(stream);
    if "tlsSettings" !in out.entries || !out.entries["tlsSettings"].Obj? {
      return;
    }
    var ts := out.entries["tlsSettings"].obj;
    var clonedTs := CloneTls(ts);
    SetTls(out, clonedTs);
    assert old(allocated(Settings(stream))) && TlsView(clonedTs) == TlsView(ts);
  }

  /** Writing the TLS settings of a stream leaves the rest as it is. */
  method SetTls(stream: GoMap, tls: GoMap)
    requires stream != tls && stream != Kid(stream, "realitySettings")
    requires stream != Kid(stream, "sockopt") && stream != Kid(stream, "finalmask")
    modifies stream
    ensures stream.entries == old(stream.entries)["tlsSettings" := Obj(tls)]
    ensures RestView(stream) == old(RestView(stream)) && "tlsSettings" !in RestView(stream)
    ensures forall key :: key != "tlsSettings" ==> Kid(stream, key) == old(Kid(stream, key))
  {
    hide Rest;
    RestIgnoresTls(stream.entries, Obj(tls), Entries(Kid(stream, "realitySettings")), Entries(Kid(stream, "sockopt")),
                   Entries(Kid(stream, "finalmask")));
    stream.entries := stream.entries["tlsSettings" := Obj(tls)];
  }

  lemma RestIgnoresTls(entries: map<string, Val>, tls: Val, reality: map<string, Val>, sockopt: map<string, Val>,
                       finalmask: map<string, Val>)
    ensures Rest(entries["tlsSettings" := tls], reality, sockopt, finalmask) == Rest(entries, reality, sockopt, finalmask)
    ensures "tlsSettings" !in Rest(entries, reality, sockopt, finalmask)
  {
  }

  // ---------------------------------------------------------------- TLS overrides

  function Put(tls: map<string, Tree>, asked: bool, key: string, v: Val): map<string, Tree> {
    if asked then tls[key := Leaf(v)] else tls
  }

  function PutNested(tls: map<string, Tree>, asked: bool, key: string, v: Val): map<string, Tree> {
    if asked then tls["settings" := Branch(Kids(tls, "settings")[key := Leaf(v)])] else tls
  }

  /** The overrides in the order in which the code writes them. */
  function TlsSteps(tls: map<string, Tree>, ep: Endpoint): map<string, Tree> {
    var named := Put(tls, ep.sni != "", "serverName", Str(ep.sni));
    var printed := PutNested(Put(named, ep.fingerprint != "", "fingerprint", Str(ep.fingerprint)),
                             ep.fingerprint != "", "fingerprint", Str(ep.fingerprint));
    var negotiated := Put(printed, ep.alpn != [], "alpn", List(ep.alpn));
    var pinned := PutNested(negotiated, ep.pins != [], "pinnedPeerCertSha256", List(ep.pins));
    var hidden := PutNested(pinned, ep.echConfigList != "", "echConfigList", Str(ep.echConfigList));
    PutNested(hidden, ep.allowInsecure, "allowInsecure", Bool(true))
  }

  lemma PutOntoWritten(tls: map<string, Tree>, plain: map<string, Tree>, nested: map<string, Tree>,
                       asked: bool, key: string, v: Val)
    requires key != "settings" && "settings" !in plain
    ensures Put(Written(tls, plain, nested), asked, key, v) == Written(tls, plain + Asked(asked, key, v), nested)
    ensures "settings" !in plain + Asked(asked, key, v)
  {
    var kids := Branch(Kids(tls, "settings") + nested);
    if asked {
      SetLater(tls, plain, key, Leaf(v));
      Swap(tls + plain, "settings", kids, key, Leaf(v));
    } else {
      assert plain + Asked(asked, key, v) == plain;
    }
  }

  lemma SetLater(a: map<string, Tree>, b: map<string, Tree>, key: string, t: Tree)
    ensures (a + b)[key := t] == a + (b + map[key := t])
  {}

  lemma Swap(m: map<string, Tree>, i: string, s: Tree, j: string, t: Tree)
    requires i != j
    ensures m[i := s][j := t] == m[j := t][i := s]
  {}

  lemma PutNestedOntoWritten(tls: map<string, Tree>, plain: map<string, Tree>, nested: map<string, Tree>,
                             asked: bool, key: string, v: Val)
    requires "settings" !in plain
    ensures PutNested(Written(tls, plain, nested), asked, key, v) == Written(tls, plain, nested + Asked(asked, key, v))
  {
    var more := nested + Asked(asked, key, v);
    if asked {
      assert key in more;
      assert Kids(tls + plain, "settings") == Kids(tls, "settings");
      SetLater(Kids(tls, "settings"), nested, key, Leaf(v));
      assert Kids(tls, "settings") + map[] == Kids(tls, "settings");
      assert PutNested(Written(tls, plain, nested), asked, key, v) == Written(tls, plain, more);
    } else {
      assert more == nested;
    }
  }

  /** The order does not matter: plain fields and nested settings are written side by side. */
  lemma TlsStepsAre(tls: map<string, Tree>, ep: Endpoint)
    ensures TlsSteps(tls, ep) == Written(tls, TlsWanted(ep), SettingsWanted(ep))
  {
    hide Put, PutNested, Written, Asked;
    var none: map<string, Tree> := map[];
    var sni := Asked(ep.sni != "", "serverName", Str(ep.sni));
    var finger := Asked(ep.fingerprint != "", "fingerprint", Str(ep.fingerprint));
    var alpn := Asked(ep.alpn != [], "alpn", List(ep.alpn));
    var pins := Asked(ep.pins != [], "pinnedPeerCertSha256", List(ep.pins));
    var ech := Asked(ep.echConfigList != "", "echConfigList", Str(ep.echConfigList));
    NothingWritten(tls);
    assert none + sni == sni && none + finger == finger;
    PutOntoWritten(tls, none, none, ep.sni != "", "serverName", Str(ep.sni));
    PutOntoWritten(tls, sni, none, ep.fingerprint != "", "fingerprint", Str(ep.fingerprint));
    PutNestedOntoWritten(tls, sni + finger, none, ep.fingerprint != "", "fingerprint", Str(ep.fingerprint));
    PutOntoWritten(tls, sni + finger, finger, ep.alpn != [], "alpn", List(ep.alpn));
    var plain := sni + finger + alpn;
    PutNestedOntoWritten(tls, plain, finger, ep.pins != [], "pinnedPeerCertSha256", List(ep.pins));
    PutNestedOntoWritten(tls, plain, finger + pins, ep.echConfigList != "", "echConfigList", Str(ep.echConfigList));
    PutNestedOntoWritten(tls, plain, finger + pins + ech, ep.allowInsecure, "allowInsecure", Bool(true));
  }

  lemma NothingWritten(tls: map<string, Tree>)
    ensures Written(tls, map[], map[]) == tls
  {
    assert tls + map[] == tls;
  }

  /** A plain field of the TLS settings, if the endpoint asks for it. */
  method PutField(tls: GoMap, asked: bool, key: string, v: Val)
    requires key != "settings" && Kid(tls, "settings") != tls
    modifies tls
    ensures Kid(tls, "settings") == old(Kid(tls, "settings"))
    ensures TlsView(tls) == Put(old(TlsView(tls)), asked, key, v)
  {
    if asked {
      tls.entries := tls.entries[key := v];
    }
  }

  /** A field of the nested settings, which are made when they are missing. */
  method PutSetting(tls: GoMap, asked: bool, key: string, v: Val)
    requires Kid(tls, "settings") != tls
    modifies tls, Kid(tls, "settings")
    ensures Kid(tls, "settings") != tls
    ensures Kid(tls, "settings") == old(Kid(tls, "settings")) || fresh(Kid(tls, "settings"))
    ensures TlsView(tls) == PutNested(old(TlsView(tls)), asked, key, v)
  {
    if !asked {
      return;
    }
    var settings: GoMap;
    if "settings" in tls.entries && tls.entries["settings"].Obj? {
      settings := tls.entries["settings"].obj;
    } else {
      settings := new GoMap(map[]);
      tls.entries := tls.entries["settings" := Obj(settings)];
    }
    ghost var before := settings.entries;
    settings.entries := settings.entries[key := v];
    assert Leaves(settings.entries) == Leaves(before)[key := Leaf(v)];
  }

  /** The field writes of `applyExternalProxyTLSToStream`. */
  method WriteTls(ep: Endpoint, tls: GoMap)
    requires Kid(tls, "settings") != tls
    modifies tls, Kid(tls, "settings")
    ensures Kid(tls, "settings") != tls
    ensures Kid(tls, "settings") == old(Kid(tls, "settings")) || fresh(Kid(tls, "settings"))
    ensures TlsView(tls) == TlsSteps(old(TlsView(tls)), ep)
  {
    hide TlsView, Put, PutNested;
    PutField(tls, ep.sni != "", "serverName", Str(ep.sni));
    PutField(tls, ep.fingerprint != "", "fingerprint", Str(ep.fingerprint));
    PutSetting(tls, ep.fingerprint != "", "fingerprint", Str(ep.fingerprint));
    PutField(tls, ep.alpn != [], "alpn", List(ep.alpn));
    PutSetting(tls, ep.pins != [], "pinnedPeerCertSha256", List(ep.pins));
    PutSetting(tls, ep.echConfigList != "", "echConfigList", Str(ep.echConfigList));
    PutSetting(tls, ep.allowInsecure, "allowInsecure", Bool(true));
  }

  /** The TLS settings of a stream, made when they are missing. */
  method TlsOf(stream: GoMap) returns (tls: GoMap)
    requires Apart(stream)
    modifies stream
    ensures Apart(stream) && Tls(stream) == tls && (tls == old(Tls(stream)) || fresh(tls))
    ensures Kid(tls, "settings") == old(Settings(stream))
    ensures TlsView(tls) == Kids(old(ViewOf(stream)), "tlsSettings")
    ensures RestView(stream) == old(RestView(stream))
    ensures forall key :: key != "tlsSettings" ==> Kid(stream, key) == old(Kid(stream, key))
  {
    hide TlsView, Rest;
    if "tlsSettings" in stream.entries && stream.entries["tlsSettings"].Obj? {
      tls := stream.entries["tlsSettings"].obj;
    } else {
      tls := new GoMap(map[]);
      SetTls(stream, tls);
      EmptyTls(tls);
    }
  }

  method WriteTlsOf(ep: Endpoint, stream: GoMap, tls: GoMap)
    requires Apart(stream) && Tls(stream) == tls
    modifies tls, Kid(tls, "settings")
    ensures Apart(stream) && Tls(stream) == tls
    ensures Kid(tls, "settings") == old(Kid(tls, "settings")) || fresh(Kid(tls, "settings"))
    ensures TlsView(tls) == Written(old(TlsView(tls)), TlsWanted(ep), SettingsWanted(ep))
    ensures RestView(stream) == old(RestView(stream)) && stream.entries == old(stream.entries)
  {
    hide TlsView, RestView, Written, TlsSteps, TlsWanted, SettingsWanted;
    TlsStepsAre(TlsView(tls), ep);
    WriteTls(ep, tls);
  }

  /** `applyExternalProxyTLSToStream`. */
  method ApplyExternalProxyTLSToStream(ep: Endpoint, stream: GoMap, security: string)
    requires Apart(stream) && (security == "tls" <==> HasText(ViewOf(stream), "security", "tls"))
    modifies stream, Tls(stream), Settings(stream)
    ensures Apart(stream) && (Tls(stream) == old(Tls(stream)) || fresh(Tls(stream)))
    ensures Settings(stream) == old(Settings(stream)) || fresh(Settings(stream))
    ensures ViewOf(stream) == WithTls(old(ViewOf(stream)), ep)
    ensures forall key :: key != "tlsSettings" ==> Kid(stream, key) == old(Kid(stream, key))
  {
    if security != "tls" {
      return;
    }
    hide TlsView, RestView, Written, TlsWanted, SettingsWanted, Apart;
    ghost var view, rest := ViewOf(stream), RestView(stream);
    assert view - {"tlsSettings"} == rest - {"tlsSettings"};
    var tls := TlsOf(stream);
    WriteTlsOf(ep, stream, tls);
    Overwritten(view, rest, Branch(TlsView(tls)));
    assert ViewOf(stream) == RestView(stream)["tlsSettings" := Branch(TlsView(tls))];
  }

  lemma Overwritten(view: View, rest: View, tls: Tree)
    requires view - {"tlsSettings"} == rest - {"tlsSettings"}
    ensures rest["tlsSettings" := tls] == view["tlsSettings" := tls]
  {
    forall k ensures k in rest && k != "tlsSettings" <==> k in view && k != "tlsSettings"
      ensures k in rest && k != "tlsSettings" ==> rest[k] == view[k]
    {
      var m := view - {"tlsSettings"};
      assert k in m <==> k in view && k != "tlsSettings";
      assert k in rest - {"tlsSettings"} <==> k in rest && k != "tlsSettings";
      if k in m {
        assert m[k] == view[k] && (rest - {"tlsSettings"})[k] == rest[k];
      }
    }
  }

  // ---------------------------------------------------------------- host overrides

  function FieldsOf(base: Val): map<string, Val>
    reads if base.Obj? then {base.obj} else {}
  {
    if base.Obj? then base.obj.entries else map[]
  }

  /** The first loop of `mergeFinalMask`; the map is walked in any order. */
  method CopyMask(fields: map<string, Val>, merged: GoMap)
    requires merged.entries == map[]
    modifies merged
    ensures merged.entries == KeptMask(fields)
  {
    var left := fields.Keys;
    while left != {}
      invariant left <= fields.Keys
      invariant forall k :: k in merged.entries <==> k in KeptMask(fields) && k !in left
      invariant forall k :: k in merged.entries ==> merged.entries[k] == fields[k]
      decreases |left|
    {
      var key := PickOne(left);
      left := left - {key};
      var value := fields[key];
      if key !in MASKS || value.List? {
        merged.entries := merged.entries[key := value];
      }
    }
  }

  /** One turn of the second loop, on a key of which `merged` still holds what the base had. */
  method AddMaskKey(merged: GoMap, extra: map<string, Val>, key: string, ghost kept: map<string, Val>)
    requires key in extra && forall k :: k in kept && k in MASKS ==> kept[k].List?
    requires (key in merged.entries <==> key in kept) && (key in kept ==> merged.entries[key] == kept[key])
    modifies merged
    ensures var added := MaskAdded(kept, extra);
            merged.entries == if key in added then old(merged.entries)[key := added[key]] else old(merged.entries)
  {
    var value := extra[key];
    if key in MASKS {
      var masks := if key in merged.entries && merged.entries[key].List? then merged.entries[key].items else [];
      if value.List? && value.items != [] {
        merged.entries := merged.entries[key := List(masks + value.items)];
      }
    } else if key != "quicParams" || key !in merged.entries {
      merged.entries := merged.entries[key := value];
    }
  }

  /** The second loop. */
  method AddMask(merged: GoMap, extra: map<string, Val>)
    requires forall key :: key in merged.entries && key in MASKS ==> merged.entries[key].List?
    modifies merged
    ensures merged.entries == old(merged.entries) + MaskAdded(old(merged.entries), extra)
  {
    ghost var kept := merged.entries;
    ghost var added := MaskAdded(kept, extra);
    hide MaskAdded;
    var left := extra.Keys;
    MaskAddedKeys(kept, extra);
    while left != {}
      invariant left <= extra.Keys
      invariant merged.entries == kept + (added - left)
      decreases |left|
    {
      var key := PickOne(left);
      OneMore(kept, added, left, key);
      AddMaskKey(merged, extra, key, kept);
      left := left - {key};
    }
    NothingLeft(added);
  }

  lemma NothingLeft(added: map<string, Val>)
    ensures added - {} == added
  {
  }

  lemma MaskAddedKeys(kept: map<string, Val>, extra: map<string, Val>)
    requires forall key :: key in kept && key in MASKS ==> kept[key].List?
    ensures kept + (MaskAdded(kept, extra) - extra.Keys) == kept
  {
    assert MaskAdded(kept, extra) - extra.Keys == map[];
  }

  lemma OneMore(kept: map<string, Val>, added: map<string, Val>, left: set<string>, key: string)
    requires key in left
    ensures var sofar := kept + (added - left);
            && (key in sofar <==> key in kept) && (key in kept ==> sofar[key] == kept[key])
            && kept + (added - (left - {key})) == if key in added then sofar[key := added[key]] else sofar
  {
    var sofar := kept + (added - left);
    var next := kept + (added - (left - {key}));
    if key in added {
      assert next == sofar[key := added[key]];
    } else {
      assert next == sofar;
    }
  }

  /** `mergeFinalMask`. */
  method MergeFinalMask(base: Val, extra: map<string, Val>) returns (merged: GoMap)
    ensures fresh(merged) && merged.entries == MergedMask(old(FieldsOf(base)), extra)
  {
    merged := new GoMap(map[]);
    if base.Obj? {
      CopyMask(base.obj.entries, merged);
    }
    AddMask(merged, extra);
  }

  /** A new map under `sockopt` or `finalmask`. */
  method PutMap(stream: GoMap, key: string, fields: GoMap)
    requires Apart(stream) && key in {"sockopt", "finalmask"}
    requires fields !in {stream, Tls(stream), Settings(stream), Kid(stream, "realitySettings")}
    modifies stream
    ensures Apart(stream) && Tls(stream) == old(Tls(stream)) && Settings(stream) == old(Settings(stream))
    ensures Kid(stream, "realitySettings") == old(Kid(stream, "realitySettings"))
    ensures ViewOf(stream) == old(ViewOf(stream))[key := Branch(Leaves(fields.entries))]
  {
    hide TlsView, Leaves, Rest;
    ghost var rest, put := RestView(stream), Branch(Leaves(fields.entries));
    ghost var view := ViewOf(stream);
    RestPut(stream.entries, Reality(stream), Entries(Kid(stream, "sockopt")), Entries(Kid(stream, "finalmask")), fields);
    stream.entries := stream.entries[key := Obj(fields)];
    assert RestView(stream) == rest[key := put];
    if "tlsSettings" in view {
      assert view == rest["tlsSettings" := view["tlsSettings"]];
      Commute(rest, key, put, "tlsSettings", view["tlsSettings"]);
    }
  }

  lemma RestPut(entries: map<string, Val>, reality: map<string, Val>, sockopt: map<string, Val>,
                finalmask: map<string, Val>, fields: GoMap)
    ensures var rest, put := Rest(entries, reality, sockopt, finalmask), Branch(Leaves(fields.entries));
            && Rest(entries["sockopt" := Obj(fields)], reality, fields.entries, finalmask) == rest["sockopt" := put]
            && Rest(entries["finalmask" := Obj(fields)], reality, sockopt, fields.entries) == rest["finalmask" := put]
  {
    RestPutSockopt(entries, reality, sockopt, finalmask, fields);
    RestPutMask(entries, reality, sockopt, finalmask, fields);
    hide Rest;
  }

  lemma RestPutSockopt(entries: map<string, Val>, reality: map<string, Val>, sockopt: map<string, Val>,
                       finalmask: map<string, Val>, fields: GoMap)
    ensures Rest(entries["sockopt" := Obj(fields)], reality, fields.entries, finalmask)
            == Rest(entries, reality, sockopt, finalmask)["sockopt" := Branch(Leaves(fields.entries))]
  {
    hide Leaves;
  }

  lemma RestPutMask(entries: map<string, Val>, reality: map<string, Val>, sockopt: map<string, Val>,
                    finalmask: map<string, Val>, fields: GoMap)
    ensures Rest(entries["finalmask" := Obj(fields)], reality, sockopt, fields.entries)
            == Rest(entries, reality, sockopt, finalmask)["finalmask" := Branch(Leaves(fields.entries))]
  {
    hide Leaves;
  }

  lemma Commute(view: View, k: string, a: Tree, j: string, b: Tree)
    requires k != j
    ensures view[k := a][j := b] == view[j := b][k := a]
  {
  }

  /** The sockopt part of `applyHostStreamOverrides`. */
  method ApplySockopt(ep: Endpoint, stream: GoMap)
    requires Apart(stream)
    modifies stream
    ensures Apart(stream) && Tls(stream) == old(Tls(stream)) && Settings(stream) == old(Settings(stream))
    ensures Kid(stream, "realitySettings") == old(Kid(stream, "realitySettings"))
    ensures ViewOf(stream) == WithSockopt(old(ViewOf(stream)), ep) && Reality(stream) == old(Reality(stream))
  {
    hide RestView, TlsView;
    if ep.sockopt != map[] {
      var sockopt := new GoMap(ep.sockopt);
      PutMap(stream, "sockopt", sockopt);
    }
  }

  /** The finalmask part. */
  method ApplyMask(ep: Endpoint, stream: GoMap)
    requires Apart(stream)
    modifies stream
    ensures Apart(stream) && Tls(stream) == old(Tls(stream)) && Settings(stream) == old(Settings(stream))
    ensures Kid(stream, "realitySettings") == old(Kid(stream, "realitySettings"))
    ensures ViewOf(stream) == WithFinalMask(old(ViewOf(stream)), ep) && Reality(stream) == old(Reality(stream))
  {
    hide RestView, TlsView, MergedMask;
    if ep.finalMask != map[] {
      var base := if "finalmask" in stream.entries then stream.entries["finalmask"] else Null;
      MaskFields(stream);
      var merged := MergeFinalMask(base, ep.finalMask);
      if merged.entries != map[] {
        PutMap(stream, "finalmask", merged);
      }
    }
  }

  lemma MaskFields(stream: GoMap)
    ensures Fields(Kids(ViewOf(stream), "finalmask"))
            == FieldsOf(if "finalmask" in stream.entries then stream.entries["finalmask"] else Null)
  {
    hide TlsView;
    var fields := FieldsOf(if "finalmask" in stream.entries then stream.entries["finalmask"] else Null);
    assert Kids(ViewOf(stream), "finalmask") == Leaves(fields);
    assert Fields(Leaves(fields)) == fields;
  }

  function SniWritten(fields: map<string, Val>, sni: string): map<string, Val> {
    fields["serverName" := Str(sni)]["serverNames" := List([Str(sni)])]
  }

  method WriteSni(rs: GoMap, sni: string)
    modifies rs
    ensures rs.entries == SniWritten(old(rs.entries), sni)
  {
    rs.entries := rs.entries["serverName" := Str(sni)];
    rs.entries := rs.entries["serverNames" := List([Str(sni)])];
  }

  /** The last part: the server name written into the reality settings, wherever they are shared. */
  method ApplySni(ep: Endpoint, stream: GoMap)
    requires Apart(stream)
    modifies Kid(stream, "realitySettings")
    ensures Apart(stream) && stream.entries == old(stream.entries)
    ensures var view := old(ViewOf(stream));
            if OverridesSni(view, ep)
            then ViewOf(stream) == WithSni(view, ep.sni) && Reality(stream) == SniWritten(old(Reality(stream)), ep.sni)
            else ViewOf(stream) == view && Reality(stream) == old(Reality(stream))
  {
    hide TlsView, Leaves, Rest;
    if ep.isHost && "security" in stream.entries && stream.entries["security"] == Str("reality") {
      if "realitySettings" in stream.entries && stream.entries["realitySettings"].Obj? {
        var rs := stream.entries["realitySettings"].obj;
        RestReality(stream.entries, Entries(Kid(stream, "sockopt")), Entries(Kid(stream, "finalmask")));
        if ep.sni != "" {
          ghost var rest, view, sni := RestView(stream), ViewOf(stream), SniWritten(rs.entries, ep.sni);
          LeavesOfSni(rs.entries, ep.sni);
          WriteSni(rs, ep.sni);
          assert RestView(stream) == rest["realitySettings" := Branch(Leaves(sni))];
          if "tlsSettings" in view {
            Commute(rest, "realitySettings", Branch(Leaves(sni)), "tlsSettings", view["tlsSettings"]);
          }
        }
      }
    }
    SecurityOf(stream);
  }

  lemma RestReality(entries: map<string, Val>, sockopt: map<string, Val>, finalmask: map<string, Val>)
    requires "realitySettings" in entries && entries["realitySettings"].Obj?
    ensures forall a, b :: Rest(entries, b, sockopt, finalmask) ==
              Rest(entries, a, sockopt, finalmask)["realitySettings" := Branch(Leaves(b))]
  {
    hide Leaves;
  }

  lemma SecurityOf(stream: GoMap)
    ensures forall text :: HasText(ViewOf(stream), "security", text)
              <==> "security" in stream.entries && stream.entries["security"] == Str(text)
    ensures HasMap(ViewOf(stream), "realitySettings") <==> Kid(stream, "realitySettings") != null
    ensures HasMap(ViewOf(stream), "realitySettings") ==>
              Kids(ViewOf(stream), "realitySettings") == Leaves(Reality(stream))
  {
    hide TlsView, Leaves;
  }

  lemma LeavesOfSni(fields: map<string, Val>, sni: string)
    ensures Leaves(SniWritten(fields, sni)) ==
            Leaves(fields)["serverName" := Leaf(Str(sni))]["serverNames" := Leaf(List([Str(sni)]))]
  {
  }

  /** The fields of a stream's reality settings. */
  function Reality(stream: GoMap): map<string, Val>
    reads stream, Kid(stream, "realitySettings")
  {
    Entries(Kid(stream, "realitySettings"))
  }

  /** `applyHostStreamOverrides`. */
  method ApplyHostStreamOverrides(ep: Endpoint, stream: GoMap)
    requires Apart(stream)
    modifies stream, Kid(stream, "realitySettings")
    ensures Kid(stream, "realitySettings") == old(Kid(stream, "realitySettings"))
    ensures ViewOf(stream) == WithHost(old(ViewOf(stream)), ep)
    ensures RealityWritten(old(ViewOf(stream)), ep, old(Reality(stream)), Reality(stream))
  {
    hide Apart, ViewOf, WithSockopt, WithFinalMask, WithSni;
    OverridesStay(ViewOf(stream), ep);
    ApplySockopt(ep, stream);
    ApplyMask(ep, stream);
    ApplySni(ep, stream);
  }

  predicate RealityWritten(view: View, ep: Endpoint, before: map<string, Val>, after: map<string, Val>) {
    after == if OverridesSni(view, ep) then SniWritten(before, ep.sni) else before
  }

  lemma OverridesStay(view: View, ep: Endpoint)
    ensures OverridesSni(WithFinalMask(WithSockopt(view, ep), ep), ep) == OverridesSni(view, ep)
  {
    SockoptKeepsReality(view, "", ep);
    FinalMaskKeepsReality(WithSockopt(view, ep), "", ep);
  }

  // ---------------------------------------------------------------- the loop

  lemma RestSecurity(entries: map<string, Val>, text: string, reality: map<string, Val>, sockopt: map<string, Val>,
                     finalmask: map<string, Val>)
    ensures Rest(entries["security" := Str(text)], reality, sockopt, finalmask)
            == Rest(entries, reality, sockopt, finalmask)["security" := Leaf(Str(text))]
  {
    hide Leaves;
  }

  lemma RestWithoutTls(entries: map<string, Val>, reality: map<string, Val>, sockopt: map<string, Val>,
                       finalmask: map<string, Val>)
    ensures Rest(entries - {"tlsSettings"}, reality, sockopt, finalmask) == Rest(entries, reality, sockopt, finalmask)
  {
    hide Leaves;
  }

  lemma RestWithoutReality(entries: map<string, Val>, reality: map<string, Val>, sockopt: map<string, Val>,
                           finalmask: map<string, Val>)
    ensures Rest(entries - {"realitySettings"}, map[], sockopt, finalmask)
            == Rest(entries, reality, sockopt, finalmask) - {"realitySettings"}
  {
    hide Leaves;
  }

  /** `stream["security"] = text`, once it is known not to be that already. */
  method SetSecurity(stream: GoMap, text: string)
    requires Apart(stream)
    modifies stream
    ensures Apart(stream) && Tls(stream) == old(Tls(stream)) && Settings(stream) == old(Settings(stream))
    ensures Kid(stream, "realitySettings") == old(Kid(stream, "realitySettings"))
    ensures ViewOf(stream) == old(ViewOf(stream))["security" := Leaf(Str(text))]
  {
    hide TlsView, Rest;
    ghost var rest, view := RestView(stream), ViewOf(stream);
    RestSecurity(stream.entries, text, Reality(stream), Entries(Kid(stream, "sockopt")), Entries(Kid(stream, "finalmask")));
    stream.entries := stream.entries["security" := Str(text)];
    assert RestView(stream) == rest["security" := Leaf(Str(text))];
    if "tlsSettings" in view {
      Commute(rest, "security", Leaf(Str(text)), "tlsSettings", view["tlsSettings"]);
    }
  }

  method ForceOn(stream: GoMap)
    requires Apart(stream)
    modifies stream
    ensures Apart(stream) && Settings(stream) == null && fresh(Tls(stream))
    ensures Kid(stream, "realitySettings") == old(Kid(stream, "realitySettings"))
    ensures ViewOf(stream) == old(ViewOf(stream))["security" := Leaf(Str("tls"))]["tlsSettings" := Branch(map[])]
  {
    hide ViewOf, Rest;
    SetSecurity(stream, "tls");
    var tls := new GoMap(map[]);
    EmptyTls(tls);
    PutTls(stream, tls);
  }

  method PutTls(stream: GoMap, tls: GoMap)
    requires Apart(stream) && tls.entries == map[]
    requires tls !in {stream, Kid(stream, "realitySettings"), Kid(stream, "sockopt"), Kid(stream, "finalmask")}
    modifies stream
    ensures Apart(stream) && Tls(stream) == tls && Settings(stream) == null
    ensures Kid(stream, "realitySettings") == old(Kid(stream, "realitySettings"))
    ensures ViewOf(stream) == old(ViewOf(stream))["tlsSettings" := Branch(map[])]
  {
    EmptyTls(tls);
    hide TlsView, Rest;
    ghost var rest, view := RestView(stream), ViewOf(stream);
    SetTls(stream, tls);
    if "tlsSettings" in view {
      Twice(rest, view["tlsSettings"], Branch(map[]));
    }
  }

  lemma Twice(rest: View, a: Tree, b: Tree)
    ensures rest["tlsSettings" := a]["tlsSettings" := b] == rest["tlsSettings" := b]
  {
  }

  lemma EmptyTls(tls: GoMap)
    requires tls.entries == map[]
    ensures TlsView(tls) == map[]
  {
  }

  /** `delete(stream, "tlsSettings")`. */
  method DeleteTls(stream: GoMap)
    requires Apart(stream)
    modifies stream
    ensures Apart(stream) && Tls(stream) == null && Settings(stream) == null
    ensures Kid(stream, "realitySettings") == old(Kid(stream, "realitySettings"))
    ensures ViewOf(stream) == old(ViewOf(stream)) - {"tlsSettings"} && "tlsSettings" !in stream.entries
  {
    hide TlsView, Rest;
    ghost var rest, view := RestView(stream), ViewOf(stream);
    RestWithoutTls(stream.entries, Reality(stream), Entries(Kid(stream, "sockopt")), Entries(Kid(stream, "finalmask")));
    stream.entries := stream.entries - {"tlsSettings"};
    assert RestView(stream) == rest;
    NoTlsInRest(stream);
    assert rest == view - {"tlsSettings"};
  }

  lemma NoTlsInRest(stream: GoMap)
    ensures "tlsSettings" !in RestView(stream)
  {
  }

  /** `delete(stream, "realitySettings")`. */
  method DeleteReality(stream: GoMap)
    requires Apart(stream) && "tlsSettings" !in stream.entries
    modifies stream
    ensures Apart(stream) && Tls(stream) == null && Settings(stream) == null && Kid(stream, "realitySettings") == null
    ensures ViewOf(stream) == old(ViewOf(stream)) - {"realitySettings"}
  {
    hide TlsView, Rest;
    RestWithoutReality(stream.entries, Reality(stream), Entries(Kid(stream, "sockopt")), Entries(Kid(stream, "finalmask")));
    stream.entries := stream.entries - {"realitySettings"};
  }

  /** The `switch` on forceTls; the JSON renderer leaves the reality settings of a "none" endpoint. */
  method ForceTls(stream: GoMap, forceTls: string, renderer: Renderer)
    requires Apart(stream)
    modifies stream
    ensures Apart(stream)
    ensures Tls(stream) == null || Tls(stream) == old(Tls(stream)) || fresh(Tls(stream))
    ensures Settings(stream) == null || Settings(stream) == old(Settings(stream))
    ensures ViewOf(stream) == Forced(old(ViewOf(stream)), forceTls, renderer)
    ensures Kid(stream, "realitySettings") == old(Kid(stream, "realitySettings"))
            || (forceTls == "none" && renderer.Clash? && Kid(stream, "realitySettings") == null)
  {
    SecurityOf(stream);
    hide ViewOf;
    ghost var view := ViewOf(stream);
    if forceTls == "tls" {
      if !("security" in stream.entries && stream.entries["security"] == Str("tls")) {
        ForceOn(stream);
      }
    } else if forceTls == "none" {
      if !("security" in stream.entries && stream.entries["security"] == Str("none")) {
        SetSecurity(stream, "none");
        DeleteTls(stream);
        if renderer.Clash? {
          DeleteReality(stream);
          TwoGone(view["security" := Leaf(Str("none"))]);
        }
      }
    }
  }

  lemma TwoGone(view: View)
    ensures view - {"tlsSettings"} - {"realitySettings"} == view - {"tlsSettings", "realitySettings"}
  {
  }

  /** Once cloned, forced and given its TLS overrides, a stream overrides the SNI iff the endpoint writes the base. */
  lemma OverridesIffWrites(base: View, ep: Endpoint, external: bool, renderer: Renderer)
    ensures var forced := Forced(base, ep.forceTls, renderer);
            OverridesSni(if external then WithTls(forced, ep) else forced, ep) <==> WritesBase(base, ep)
  {
    hide WithTls, WithSni;
    TlsKeepsReality(Forced(base, ep.forceTls, renderer), "", ep);
  }

  method CloneApart(base: GoMap) returns (stream: GoMap)
    requires Apart(base)
    ensures fresh(stream) && (Tls(stream) != null ==> fresh(Tls(stream)))
    ensures Settings(stream) != null ==> fresh(Settings(stream))
    ensures Apart(stream) && ViewOf(stream) == ViewOf(base)
    ensures Kid(stream, "realitySettings") == Kid(base, "realitySettings")
  {
    hide ViewOf;
    stream := CloneStreamForExternalProxy(base);
    assert old(allocated(Kid(base, "realitySettings")));
    assert old(allocated(Kid(base, "sockopt")));
    assert old(allocated(Kid(base, "finalmask")));
  }

  /** The switch and the TLS overrides of the loop body. */
  method Secure(stream: GoMap, ep: Endpoint, external: bool, renderer: Renderer)
    requires Apart(stream)
    modifies stream, Tls(stream), Settings(stream)
    ensures Apart(stream)
    ensures ViewOf(stream) == (var forced := Forced(old(ViewOf(stream)), ep.forceTls, renderer);
                               if external then WithTls(forced, ep) else forced)
    ensures Kid(stream, "realitySettings") == old(Kid(stream, "realitySettings"))
            || (ep.forceTls == "none" && renderer.Clash? && Kid(stream, "realitySettings") == null)
  {
    hide ViewOf, Forced, WithTls, Apart;
    ForceTls(stream, ep.forceTls, renderer);
    if external {
      SecurityOf(stream);
      var security := if "security" in stream.entries && stream.entries["security"].Str? then stream.entries["security"].text else "";
      ApplyExternalProxyTLSToStream(ep, stream, security);
    }
  }

  /** The clone with its TLS overrides; the base is only read. */
  method CloneSecured(base: GoMap, ep: Endpoint, external: bool, renderer: Renderer) returns (stream: GoMap)
    requires Apart(base)
    ensures fresh(stream) && Apart(stream)
    ensures ViewOf(stream) == (var forced := Forced(ViewOf(base), ep.forceTls, renderer);
                               if external then WithTls(forced, ep) else forced)
    ensures Kid(stream, "realitySettings") == Kid(base, "realitySettings")
            || (ep.forceTls == "none" && renderer.Clash? && Kid(stream, "realitySettings") == null)
  {
    hide ViewOf, Forced, WithTls;
    stream := CloneApart(base);
    Secure(stream, ep, external, renderer);
  }

  /** The body of the loop: clone, force, TLS overrides, host overrides. */
  method BuildStream(base: GoMap, ep: Endpoint, external: bool, renderer: Renderer) returns (stream: GoMap)
    requires Apart(base)
    modifies Kid(base, "realitySettings")
    ensures fresh(stream) && base.entries == old(base.entries)
    ensures ViewOf(stream) == Built(old(ViewOf(base)), ep, external, renderer)
    ensures Reality(base) == if WritesBase(old(ViewOf(base)), ep) then SniWritten(old(Reality(base)), ep.sni)
                             else old(Reality(base))
  {
    hide ViewOf, Forced, WithTls, WithHost, WritesBase, SniWritten;
    OverridesIffWrites(ViewOf(base), ep, external, renderer);
    stream := CloneSecured(base, ep, external, renderer);
    SecurityOf(stream);
    ApplyHostStreamOverrides(ep, stream);
  }

  /** The stream of one endpoint, and what is left of the base for the next. */
  method BuildEndpoint(base: GoMap, ep: Endpoint, external: bool, renderer: Renderer) returns (stream: GoMap)
    requires Apart(base)
    modifies Kid(base, "realitySettings")
    ensures fresh(stream) && base.entries == old(base.entries) && Apart(base)
    ensures ViewOf(stream) == Built(old(ViewOf(base)), ep, external, renderer)
    ensures ViewOf(base) == BaseAfter(old(ViewOf(base)), ep)
    ensures EndpointFields.StreamSays(old(ViewOf(base)), ep, external, renderer, ViewOf(stream))
  {
    hide TlsView, Rest, Built, EndpointFields.StreamSays;
    MaskIsFlat(base);
    EndpointFields.BuiltSaysExactly(ViewOf(base), ep, external, renderer);
    ghost var rest, view, reality := RestView(base), ViewOf(base), Reality(base);
    SecurityOf(base);
    if Kid(base, "realitySettings") != null {
      RestReality(base.entries, Entries(Kid(base, "sockopt")), Entries(Kid(base, "finalmask")));
    }
    stream := BuildStream(base, ep, external, renderer);
    LeavesOfSni(reality, ep.sni);
    if WritesBase(view, ep) {
      var sni := Branch(Leaves(SniWritten(reality, ep.sni)));
      assert RestView(base) == rest["realitySettings" := sni];
      if "tlsSettings" in view {
        Commute(rest, "realitySettings", sni, "tlsSettings", view["tlsSettings"]);
      }
    }
  }

  /** The masks of a stream are leaves. */
  lemma MaskIsFlat(stream: GoMap)
    ensures EndpointFields.Flat(EndpointFields.KidsOf(EndpointFields.At(ViewOf(stream), "finalmask")))
  {
    hide TlsView;
    assert "finalmask" != "tlsSettings" && "finalmask" != "realitySettings" && "finalmask" != "sockopt";
  }

  /**
  The endpoint loops of `getProxies` and `getConfig`: the streams as they are rendered, one per
  endpoint. Only the reality settings of the base can change.
  */
  method RenderEndpoints(base: GoMap, eps: seq<Endpoint>, external: bool, renderer: Renderer)
    returns (rendered: seq<View>)
    requires Apart(base)
    modifies Kid(base, "realitySettings")
    ensures |rendered| == |eps| && base.entries == old(base.entries)
    ensures forall k :: 0 <= k < |eps| ==>
              rendered[k] == Built(BaseAfterAll(old(ViewOf(base)), eps[..k]), eps[k], external, renderer)
    ensures forall k :: 0 <= k < |eps| ==>
              EndpointFields.StreamSays(BaseAfterAll(old(ViewOf(base)), eps[..k]), eps[k], external, renderer, rendered[k])
    ensures ViewOf(base) == BaseAfterAll(old(ViewOf(base)), eps)
  {
    hide ViewOf, Built, BaseAfter, Apart, EndpointFields.StreamSays;
    rendered := [];
    ghost var view := ViewOf(base);
    MaskIsFlat(base);
    var i := 0;
    while i < |eps|
      invariant i <= |eps| && |rendered| == i && base.entries == old(base.entries) && Apart(base)
      invariant ViewOf(base) == BaseAfterAll(view, eps[..i])
      invariant forall k :: 0 <= k < i ==> rendered[k] == Built(BaseAfterAll(view, eps[..k]), eps[k], external, renderer)
    {
      var stream := BuildEndpoint(base, eps[i], external, renderer);
      assert eps[..i + 1][..i] == eps[..i];
      rendered := rendered + [ViewOf(stream)];
      i := i + 1;
    }
    assert eps[..i] == eps;
    AllSay(view, eps, external, renderer, rendered);
  }

  lemma AllSay(base: View, eps: seq<Endpoint>, external: bool, renderer: Renderer, rendered: seq<View>)
    requires EndpointFields.Flat(EndpointFields.KidsOf(EndpointFields.At(base, "finalmask"))) && |rendered| == |eps|
    requires forall k :: 0 <= k < |eps| ==> rendered[k] == Built(BaseAfterAll(base, eps[..k]), eps[k], external, renderer)
    ensures forall k :: 0 <= k < |eps| ==>
              EndpointFields.StreamSays(BaseAfterAll(base, eps[..k]), eps[k], external, renderer, rendered[k])
  {
    hide Built, EndpointFields.StreamSays, EndpointFields.Flat;
    forall k | 0 <= k < |eps|
      ensures EndpointFields.StreamSays(BaseAfterAll(base, eps[..k]), eps[k], external, renderer, rendered[k])
    {
      EndpointFields.LaterSaysExactly(base, eps[..k], eps[k], external, renderer);
    }
  }

  /**
  Endpoint isolation: if the base stream's security is not reality, every endpoint gets the stream
  it would get alone, and the base is unchanged.
  */
  method RenderIsolated(base: GoMap, eps: seq<Endpoint>, external: bool, renderer: Renderer)
    returns (rendered: seq<View>)
    requires Apart(base) && !HasText(ViewOf(base), "security", "reality")
    modifies Kid(base, "realitySettings")
    ensures |rendered| == |eps| && ViewOf(base) == old(ViewOf(base))
    ensures forall k :: 0 <= k < |eps| ==> rendered[k] == Built(old(ViewOf(base)), eps[k], external, renderer)
    ensures forall k :: 0 <= k < |eps| ==>
              EndpointFields.StreamSays(old(ViewOf(base)), eps[k], external, renderer, rendered[k])
  {
    hide ViewOf, Built, EndpointFields.StreamSays;
    ghost var view := ViewOf(base);
    rendered := RenderEndpoints(base, eps, external, renderer);
    NotRealityNotWritten(view, eps);
    forall k | 0 <= k < |eps|
      ensures rendered[k] == Built(view, eps[k], external, renderer)
           && EndpointFields.StreamSays(view, eps[k], external, renderer, rendered[k])
    {
      NotRealityNotWritten(view, eps[..k]);
    }
  }
}
