/**
The links of one inbound's endpoints (internal/sub/endpoint.go:76-103, service.go:1282-1301,
host_sub.go:252-300): the inbound's parameters are cloned for each endpoint, the endpoint's
overrides are written into the clone, and every link becomes a line.
*/
module ShareEndpoints {
  import opened Text
  import opened Percent
  import opened ShareLink

  /** The overrides of an externalProxy entry or a host as their readers see them: empty where absent. */
  datatype Overrides = Overrides(
    isHost: bool, sni: string, fingerprint: string, alpn: string, pins: string, echConfigList: string,
    hostHeader: string, path: string, allowInsecure: bool)

  datatype ShareEndpoint = ShareEndpoint(address: string, port: int, forceTls: string, ep: Option<Overrides>)

  predicate ByteOverrides(o: Overrides) {
    && ByteText(o.sni) && ByteText(o.fingerprint) && ByteText(o.alpn) && ByteText(o.pins)
    && ByteText(o.echConfigList) && ByteText(o.hostHeader) && ByteText(o.path)
  }

  predicate ByteEndpoint(e: ShareEndpoint) {
    ByteText(e.forceTls) && (e.ep.Some? ==> ByteOverrides(e.ep.value))
  }

  // ---------------------------------------------------------------- what a link carries

  function Security(e: ShareEndpoint, baseSecurity: string): string {
    if e.forceTls != "same" then e.forceTls else baseSecurity
  }

  function TlsField(o: Overrides, key: string): string {
    if key == "sni" then o.sni
    else if key == "fp" then o.fingerprint
    else if key == "alpn" then o.alpn
    else if key == "pcs" then o.pins
    else if key == "ech" then o.echConfigList
    else ""
  }

  function RealityField(o: Overrides, key: string): string {
    if key == "sni" then o.sni else if key == "fp" then o.fingerprint else ""
  }

  function TransportField(o: Overrides, key: string): string {
    if key == "host" then o.hostHeader else if key == "path" then o.path else ""
  }

  /** What an endpoint writes under a key, empty for nothing; `there` says that the key exists already. */
  function Override(o: Overrides, security: string, key: string, there: bool): string {
    if security == "tls" && TlsField(o, key) != "" then TlsField(o, key)
    else if security == "reality" && o.isHost && RealityField(o, key) != "" then RealityField(o, key)
    else if there && TransportField(o, key) != "" then TransportField(o, key)
    else if key == "allowInsecure" && o.allowInsecure && security != "none" then "1"
    else ""
  }

  const OVERRIDABLE: set<string> := {"sni", "fp", "alpn", "pcs", "ech", "allowInsecure"}

  /** The parameters with the overrides of one endpoint, key by key. */
  function Overridden(params: Params, e: ShareEndpoint, security: string): Params {
    if e.ep.None? then params
    else
      map key | key in params.Keys + OVERRIDABLE
                && (key in params || Override(e.ep.value, security, key, false) != "") ::
        var v := Override(e.ep.value, security, key, key in params);
        if v != "" then v else params[key]
  }

  /** What the link of an endpoint carries. */
  function Carried(params: Params, e: ShareEndpoint, baseSecurity: string): Params {
    var security := Security(e, baseSecurity);
    Effective(Overridden(params, e, security), security, e.forceTls == "none")
  }

  lemma OverrideIsBytes(o: Overrides, security: string, key: string, there: bool)
    requires ByteOverrides(o)
    ensures ByteText(Override(o, security, key, there))
  {
  }

  lemma CarriedIsBytes(params: Params, e: ShareEndpoint, baseSecurity: string)
    requires ByteParams(params) && ByteEndpoint(e) && ByteText(baseSecurity)
    ensures ByteParams(Overridden(params, e, Security(e, baseSecurity))) && ByteParams(Carried(params, e, baseSecurity))
  {
    hide Override, ByteOverrides;
    var security := Security(e, baseSecurity);
    var overridden := Overridden(params, e, security);
    forall k | k in overridden ensures ByteText(k) && ByteText(overridden[k]) {
      if e.ep.Some? {
        OverrideIsBytes(e.ep.value, security, k, k in params);
        if k !in params { assert k in OVERRIDABLE; }
      }
    }
  }

  /** The link of one endpoint: a function of the inbound's parameters and this endpoint alone. */
  function EndpointLink(password: string, params: Params, e: ShareEndpoint, baseSecurity: string, remark: string): string
    requires ByteText(password) && ByteParams(params) && ByteEndpoint(e) && ByteText(baseSecurity) && ByteText(remark)
  {
    CarriedIsBytes(params, e, baseSecurity);
    FullLink(password, e.address, e.port, Carried(params, e, baseSecurity), remark)
  }

  /** Everything the printer is given is byte text, which Go strings are. */
  predicate Printable(password: string, params: Params, eps: seq<ShareEndpoint>, baseSecurity: string,
                      remarks: seq<string>)
  {
    && ByteText(password) && ByteParams(params) && ByteText(baseSecurity) && |remarks| == |eps|
    && forall i :: 0 <= i < |eps| ==> ByteEndpoint(eps[i]) && ByteText(remarks[i])
  }

  function Links(password: string, params: Params, eps: seq<ShareEndpoint>, baseSecurity: string,
                 remarks: seq<string>): seq<string>
    requires Printable(password, params, eps, baseSecurity, remarks)
  {
    seq(|eps|, i requires 0 <= i < |eps| => EndpointLink(password, params, eps[i], baseSecurity, remarks[i]))
  }

  /**
  An endpoint that forces nothing and overrides nothing carries the inbound's parameters, exactly if
  their security is the stream's.
  */
  lemma DefaultCarriesInbound(params: Params, e: ShareEndpoint, baseSecurity: string)
    requires e.ep.None? && e.forceTls == "same"
    ensures Carried(params, e, baseSecurity) == params
            <==> baseSecurity == "" || "security" !in params || params["security"] == baseSecurity
  {
    var carried := Carried(params, e, baseSecurity);
    assert carried.Keys == params.Keys;
    if carried == params && "security" in params {
      assert carried["security"] == params["security"];
    }
  }

  /** A value written there, unless it is empty. */
  function Instead(v: string, was: Option<string>): Option<string> { if v != "" then Some(v) else was }

  /** One key of what is carried. */
  lemma CarriedAt(params: Params, e: ShareEndpoint, baseSecurity: string, key: string)
    requires e.ep.Some? && key !in params && key !in OVERRIDABLE ==>
               Override(e.ep.value, Security(e, baseSecurity), key, false) == ""
    ensures var security := Security(e, baseSecurity);
            var own := if e.ep.Some? then Override(e.ep.value, security, key, key in params) else "";
            var v := Instead(own, Get(params, key));
            Get(Carried(params, e, baseSecurity), key)
            == if e.forceTls == "none" && key in TLS_HINTS then None
               else if key == "security" && security != "" && v.Some? then Some(security) else v
  {
    hide Override, Security;
    var none := e.forceTls == "none";
    hide TLS_HINTS, OVERRIDABLE;
  }

  /** What an endpoint writes under the keys clients know. */
  lemma OverrideTls(o: Overrides, there: bool)
    ensures Override(o, "tls", "sni", there) == o.sni && Override(o, "tls", "fp", there) == o.fingerprint
    ensures Override(o, "tls", "alpn", there) == o.alpn && Override(o, "tls", "pcs", there) == o.pins
    ensures Override(o, "tls", "ech", there) == o.echConfigList
    ensures Override(o, "tls", "allowInsecure", there) == if o.allowInsecure then "1" else ""
  {
    KeysDiffer();
  }

  lemma OverrideReality(o: Overrides, there: bool)
    ensures Override(o, "reality", "sni", there) == if o.isHost then o.sni else ""
    ensures Override(o, "reality", "fp", there) == if o.isHost then o.fingerprint else ""
    ensures Override(o, "reality", "alpn", there) == Override(o, "reality", "pcs", there) == Override(o, "reality", "ech", there) == ""
  {
    KeysDiffer();
  }

  lemma OverrideNone(o: Overrides, there: bool)
    ensures Override(o, "none", "ech", there) == Override(o, "none", "allowInsecure", there) == Override(o, "none", "security", there) == ""
  {
    KeysDiffer();
  }

  lemma OverrideTransport(o: Overrides, security: string, key: string)
    requires key !in OVERRIDABLE
    ensures Override(o, security, key, false) == "" && "host" !in OVERRIDABLE && "path" !in OVERRIDABLE && "security" !in OVERRIDABLE
    ensures Override(o, security, key, true) == if key == "host" then o.hostHeader else if key == "path" then o.path else ""
  {
    KeysDiffer();
  }

  /** What a TLS link carries: the endpoint's fields where it has them, under the keys clients know. */
  lemma TlsLinkCarries(params: Params, e: ShareEndpoint, baseSecurity: string)
    requires e.ep.Some? && Security(e, baseSecurity) == "tls"
    ensures var o, c := e.ep.value, Carried(params, e, baseSecurity);
            && Get(c, "sni") == Instead(o.sni, Get(params, "sni")) && Get(c, "fp") == Instead(o.fingerprint, Get(params, "fp"))
            && Get(c, "alpn") == Instead(o.alpn, Get(params, "alpn")) && Get(c, "pcs") == Instead(o.pins, Get(params, "pcs"))
            && Get(c, "ech") == Instead(o.echConfigList, Get(params, "ech"))
            && Get(c, "allowInsecure") == (if o.allowInsecure then Some("1") else Get(params, "allowInsecure"))
  {
    KeysDiffer();
    hide Override, Carried;
    OverrideTls(e.ep.value, true);
    OverrideTls(e.ep.value, false);
    assert e.forceTls != "none" by { assert "tls" != "none"; }
    CarriedAt(params, e, baseSecurity, "sni");
    CarriedAt(params, e, baseSecurity, "fp");
    CarriedAt(params, e, baseSecurity, "alpn");
    CarriedAt(params, e, baseSecurity, "pcs");
    CarriedAt(params, e, baseSecurity, "ech");
    CarriedAt(params, e, baseSecurity, "allowInsecure");
  }

  /** A reality link of a host carries its server name and fingerprint, and none of its other TLS fields. */
  lemma RealityLinkCarries(params: Params, e: ShareEndpoint, baseSecurity: string)
    requires e.ep.Some? && Security(e, baseSecurity) == "reality"
    ensures var o, c := e.ep.value, Carried(params, e, baseSecurity);
            && Get(c, "sni") == Instead(if o.isHost then o.sni else "", Get(params, "sni"))
            && Get(c, "fp") == Instead(if o.isHost then o.fingerprint else "", Get(params, "fp"))
            && Get(c, "alpn") == Get(params, "alpn") && Get(c, "pcs") == Get(params, "pcs") && Get(c, "ech") == Get(params, "ech")
  {
    KeysDiffer();
    hide Override, Carried;
    OverrideReality(e.ep.value, true);
    OverrideReality(e.ep.value, false);
    assert e.forceTls != "none" by { assert "reality" != "none"; }
    CarriedAt(params, e, baseSecurity, "sni");
    CarriedAt(params, e, baseSecurity, "fp");
    CarriedAt(params, e, baseSecurity, "alpn");
    CarriedAt(params, e, baseSecurity, "pcs");
    CarriedAt(params, e, baseSecurity, "ech");
  }

  /** A link without security names no server, no fingerprint, no ALPN and no pins, whatever inbound and endpoint say. */
  lemma PlainLinkCarries(params: Params, e: ShareEndpoint, baseSecurity: string)
    requires e.forceTls == "none"
    ensures var c := Carried(params, e, baseSecurity);
            && Get(c, "sni") == None && Get(c, "fp") == None && Get(c, "alpn") == None && Get(c, "pcs") == None
            && Get(c, "security") == (if "security" in params then Some("none") else None)
            && Get(c, "ech") == Get(params, "ech") && Get(c, "allowInsecure") == Get(params, "allowInsecure")
  {
    KeysDiffer();
    hide Override, Carried;
    assert Security(e, baseSecurity) == "none" by { assert "none" != "same"; }
    if e.ep.Some? {
      OverrideNone(e.ep.value, true);
      OverrideNone(e.ep.value, false);
    }
    CarriedAt(params, e, baseSecurity, "sni");
    CarriedAt(params, e, baseSecurity, "fp");
    CarriedAt(params, e, baseSecurity, "alpn");
    CarriedAt(params, e, baseSecurity, "pcs");
    CarriedAt(params, e, baseSecurity, "ech");
    CarriedAt(params, e, baseSecurity, "allowInsecure");
    CarriedAt(params, e, baseSecurity, "security");
  }

  /** Host and path are replaced where the transport has them; keys no override knows stay as they are. */
  lemma OtherKeysCarried(params: Params, e: ShareEndpoint, baseSecurity: string, key: string)
    requires key !in OVERRIDABLE
    ensures var c := Carried(params, e, baseSecurity);
            var own := if e.ep.None? then "" else if key == "host" then e.ep.value.hostHeader
                       else if key == "path" then e.ep.value.path else "";
            Get(c, key) == if key !in params then None
                           else if key == "security" then Instead(Security(e, baseSecurity), Get(params, key))
                           else Instead(own, Get(params, key))
  {
    hide Override, Carried, Security;
    if e.ep.Some? {
      OverrideTransport(e.ep.value, Security(e, baseSecurity), key);
    }
    CarriedAt(params, e, baseSecurity, key);
    HintsAreOverridable();
    assert "security" != "host" && "security" != "path" by { assert "security"[0] == 's' && "host"[0] == 'h' && "path"[0] == 'p'; }
  }

  lemma HintsAreOverridable()
    ensures TLS_HINTS <= OVERRIDABLE
  {
  }

  lemma KeysDiffer()
    ensures "sni" != "fp" && "sni" != "alpn" && "alpn" != "fp" && "pcs" != "ech" && "pcs" != "path" && "host" != "path"
  {
    assert "sni"[0] == 's' && "fp"[0] == 'f' && "alpn"[0] == 'a' && "pcs"[1] == 'c' && "path"[1] == 'a' && "ech"[0] == 'e' && "host"[0] == 'h';
  }

  // ---------------------------------------------------------------- reading the lines back

  function ReadLines(text: string): seq<Option<Parts>> {
    var lines := Split(text, '\n');
    seq(|lines|, i requires 0 <= i < |lines| => ReadLink(lines[i]))
  }

  function PartsOf(password: string, params: Params, e: ShareEndpoint, baseSecurity: string, remark: string): Parts {
    var carried := Carried(params, e, baseSecurity);
    Parts(password, TrimBrackets(e.address), e.port, map k | k in carried :: [carried[k]], remark)
  }

  predicate Dialable(e: ShareEndpoint) {
    Undelimited(TrimBrackets(e.address)) && '\n' !in TrimBrackets(e.address) && e.port >= 0
  }

  /** Hosts are printed raw; nothing else in a link can hold a line break. */
  lemma NewlineOnlyInHost(password: string, host: string, port: int, params: Params, remark: string)
    requires ByteText(password) && ByteParams(params) && ByteText(remark)
    ensures '\n' in FullLink(password, host, port, params, remark) <==> '\n' in TrimBrackets(host)
  {
    hide EncodeUserinfo, EncodeQuery, TrimBrackets, Itoa;
    UserinfoReadsBack(password);
    UserinfoReadsBack(remark);
    QueryIsPlain(params);
    NewlineInAuthority(host, port);
    var head := TrojanLink(password, host, port);
    assert '\n' !in SCHEME && '\n' !in "@";
    assert '\n' in head <==> '\n' in TrimBrackets(host);
  }

  lemma NewlineInAuthority(host: string, port: int)
    ensures '\n' in JoinHostPort(host, port) <==> '\n' in TrimBrackets(host)
  {
    hide TrimBrackets;
    var digits := Itoa(port);
    assert '\n' !in digits by {
      assert forall i :: 0 < i < |digits| ==> digits[i] == digits[1..][i - 1];
    }
  }

  /**
  The subscription of an inbound reads back line by line to each endpoint's own address, port,
  parameters and remark, if and only if every host holds no line break and none of `# ? / @`,
  and no port is negative.
  */
  lemma LinesReadBack(password: string, params: Params, eps: seq<ShareEndpoint>, baseSecurity: string,
                      remarks: seq<string>)
    requires eps != [] && Printable(password, params, eps, baseSecurity, remarks)
    ensures ReadLines(Join(Links(password, params, eps, baseSecurity, remarks), '\n')) ==
            seq(|eps|, i requires 0 <= i < |eps| => Some(PartsOf(password, params, eps[i], baseSecurity, remarks[i])))
            <==> forall i :: 0 <= i < |eps| ==> Dialable(eps[i])
  {
    hide EndpointLink, Carried, TrimBrackets, ReadLink, Split, Join, Undelimited, PartsOf;
    var links := Links(password, params, eps, baseSecurity, remarks);
    forall i | 0 <= i < |eps|
      ensures '\n' in links[i] <==> '\n' in TrimBrackets(eps[i].address)
      ensures ReadLink(links[i]) == Some(PartsOf(password, params, eps[i], baseSecurity, remarks[i]))
              <==> Undelimited(TrimBrackets(eps[i].address)) && eps[i].port >= 0
    {
      OneLine(password, params, eps[i], baseSecurity, remarks[i]);
    }
    SplitJoinCounts(links, '\n');
    var lines := Split(Join(links, '\n'), '\n');
    var parts := seq(|eps|, i requires 0 <= i < |eps| => Some(PartsOf(password, params, eps[i], baseSecurity, remarks[i])));
    var read := ReadLines(Join(links, '\n'));
    if i :| 0 <= i < |eps| && '\n' in links[i] {
      assert links[i] in links && !Dialable(eps[i]);
      assert |read| > |parts|;
    } else {
      assert lines == links;
      assert forall i :: 0 <= i < |eps| ==> (read[i] == parts[i] <==> Dialable(eps[i]));
    }
  }

  lemma OneLine(password: string, params: Params, e: ShareEndpoint, baseSecurity: string, remark: string)
    requires ByteText(password) && ByteParams(params) && ByteEndpoint(e) && ByteText(baseSecurity) && ByteText(remark)
    ensures var link := EndpointLink(password, params, e, baseSecurity, remark);
            && ('\n' in link <==> '\n' in TrimBrackets(e.address))
            && (ReadLink(link) == Some(PartsOf(password, params, e, baseSecurity, remark))
                <==> Undelimited(TrimBrackets(e.address)) && e.port >= 0)
  {
    hide FullLink, Carried, TrimBrackets, ReadLink, Undelimited;
    CarriedIsBytes(params, e, baseSecurity);
    var carried := Carried(params, e, baseSecurity);
    LinkReadsBack(password, e.address, e.port, carried, remark);
    NewlineOnlyInHost(password, e.address, e.port, carried, remark);
  }

  // ---------------------------------------------------------------- the code

  /** A Go map of strings. */
  class StringMap {
    var entries: Params

    constructor (entries: Params)
      ensures this.entries == entries
    {
      this.entries := entries;
    }
  }

  function Get(params: Params, key: string): Option<string> { if key in params then Some(params[key]) else None }

  /** What is under a key once `v` was written there, unless it is empty. */
  function Replaced(v: string, was: Option<string>): Option<string> { if v != "" then Some(v) else was }

  /** `applyEndpointTLSParams`. */
  method ApplyEndpointTLSParams(e: ShareEndpoint, params: StringMap, security: string)
    modifies params
    ensures forall k :: Get(params.entries, k)
                        == Replaced(if e.ep.Some? && security == "tls" then TlsField(e.ep.value, k) else "",
                                    Get(old(params.entries), k))
  {
    if e.ep.None? || security != "tls" {
      return;
    }
    var o := e.ep.value;
    if o.sni != "" {
      params.entries := params.entries["sni" := o.sni];
    }
    if o.fingerprint != "" {
      params.entries := params.entries["fp" := o.fingerprint];
    }
    if o.alpn != "" {
      params.entries := params.entries["alpn" := o.alpn];
    }
    if o.pins != "" {
      params.entries := params.entries["pcs" := o.pins];
    }
    if o.echConfigList != "" {
      params.entries := params.entries["ech" := o.echConfigList];
    }
  }

  /** `applyEndpointRealityParams`: hosts only. */
  method ApplyEndpointRealityParams(e: ShareEndpoint, params: StringMap, security: string)
    modifies params
    ensures forall k :: Get(params.entries, k)
                        == Replaced(if e.ep.Some? && e.ep.value.isHost && security == "reality" then RealityField(e.ep.value, k)
                                    else "", Get(old(params.entries), k))
  {
    if security != "reality" || e.ep.None? || !e.ep.value.isHost {
      return;
    }
    var o := e.ep.value;
    if o.sni != "" {
      params.entries := params.entries["sni" := o.sni];
    }
    if o.fingerprint != "" {
      params.entries := params.entries["fp" := o.fingerprint];
    }
  }

  /** `applyEndpointHostPath`: only keys the transport already has. */
  method ApplyEndpointHostPath(e: ShareEndpoint, params: StringMap)
    modifies params
    ensures forall k :: Get(params.entries, k)
                        == Replaced(if e.ep.Some? && k in old(params.entries) then TransportField(e.ep.value, k) else "",
                                    Get(old(params.entries), k))
  {
    if e.ep.None? {
      return;
    }
    var o := e.ep.value;
    if o.hostHeader != "" && "host" in params.entries {
      params.entries := params.entries["host" := o.hostHeader];
    }
    if o.path != "" && "path" in params.entries {
      params.entries := params.entries["path" := o.path];
    }
  }

  /** `applyEndpointAllowInsecure`. */
  method ApplyEndpointAllowInsecure(e: ShareEndpoint, params: StringMap, security: string)
    modifies params
    ensures forall k :: Get(params.entries, k)
                        == Replaced(if e.ep.Some? && security != "none" && e.ep.value.allowInsecure && k == "allowInsecure"
                                    then "1" else "", Get(old(params.entries), k))
  {
    if e.ep.None? || security == "none" {
      return;
    }
    if e.ep.value.allowInsecure {
      params.entries := params.entries["allowInsecure" := "1"];
    }
  }

  /** `cloneStringMap` and the four overrides, in the order of the code. */
  method NextParams(e: ShareEndpoint, params: StringMap, security: string) returns (next: StringMap)
    ensures fresh(next) && next.entries == Overridden(params.entries, e, security)
  {
    hide TlsField, RealityField, TransportField;
    next := new StringMap(params.entries);
    ApplyEndpointTLSParams(e, next, security);
    ApplyEndpointRealityParams(e, next, security);
    ApplyEndpointHostPath(e, next);
    ApplyEndpointAllowInsecure(e, next, security);
    forall k ensures Get(next.entries, k) == Get(Overridden(params.entries, e, security), k) {
      if e.ep.Some? { OneKey(e.ep.value, security, k); }
    }
    SameGets(next.entries, Overridden(params.entries, e, security));
  }

  /** Transport keys are no TLS keys, and `allowInsecure` is neither. */
  lemma OneKey(o: Overrides, security: string, k: string)
    ensures TlsField(o, k) != "" || RealityField(o, k) != "" ==> k in OVERRIDABLE && TransportField(o, k) == "" && k != "allowInsecure"
    ensures k == "allowInsecure" ==> k in OVERRIDABLE && TransportField(o, k) == ""
  {
  }

  lemma SameGets(a: Params, b: Params)
    requires forall k :: Get(a, k) == Get(b, k)
    ensures a == b
  {
    forall k ensures k in a <==> k in b {
      assert Get(a, k) == Get(b, k);
    }
    forall k | k in a ensures a[k] == b[k] {
      assert Get(a, k) == Get(b, k);
    }
  }

  /**
  `buildEndpointLinks` of a Trojan inbound; the inbound's own parameters are only read. The `i`-th call
  of `makeRemark` gives the `i`-th remark.
  */
  method BuildEndpointLinks(password: string, eps: seq<ShareEndpoint>, params: StringMap, baseSecurity: string,
                            remarks: seq<string>) returns (out: string)
    requires Printable(password, params.entries, eps, baseSecurity, remarks)
    ensures out == Join(Links(password, params.entries, eps, baseSecurity, remarks), '\n')
  {
    hide Overridden, FullLink, Join, Effective, WithQuery, WithFragment, TrojanLink;
    var links: seq<string> := [];
    ghost var all := Links(password, params.entries, eps, baseSecurity, remarks);
    for i := 0 to |eps|
      invariant links == all[..i]
    {
      var e := eps[i];
      var securityToApply := baseSecurity;
      if e.forceTls != "same" {
        securityToApply := e.forceTls;
      }
      var nextParams := NextParams(e, params, securityToApply);
      CarriedIsBytes(params.entries, e, baseSecurity);
      var link := AppendQueryAndFragment(TrojanLink(password, e.address, e.port), nextParams.entries, remarks[i],
                                         securityToApply, e.forceTls == "none");
      assert link == all[i] by {
        WholeLink(password, e.address, e.port, Carried(params.entries, e, baseSecurity), remarks[i]);
      }
      links := links + [link];
    }
    assert all[..|eps|] == all;
    out := Join(links, '\n');
  }

  lemma WholeLink(password: string, host: string, port: int, params: Params, remark: string)
    requires ByteText(password) && ByteParams(params) && ByteText(remark)
    ensures FullLink(password, host, port, params, remark)
            == WithFragment(WithQuery(TrojanLink(password, host, port), params), remark)
  {
  }
}
