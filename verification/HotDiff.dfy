/**
`ComputeHotDiff` (internal/xray/hot_diff.go): which operations of the core's API lead from the
running configuration to a new one, and when only a restart can. The methods follow the code,
byte comparisons of canonical texts included; their contracts speak of what the sections mean.
*/
module HotDiff {
  import opened Text
  import opened Json
  import opened JsonCanonical
  import opened TagDiff

  // ---------------------------------------------------------------- configurations

  /** An inbound as generated by the panel; the JSON sections are raw text. */
  datatype InboundConfig = InboundConfig(
    listen: string, port: int, protocol: string, settings: string,
    streamSettings: string, tag: string, sniffing: string)

  datatype Config = Config(
    log: string, router: string, dns: string, inbounds: seq<InboundConfig>, outbounds: string,
    transport: string, policy: string, api: string, stats: string, reverse: string, fakeDns: string,
    observatory: string, burstObservatory: string, metrics: string, geodata: string)

  /** The sections the core cannot reload, in the order they are compared. */
  function StaticSections(c: Config): seq<string> {
    [c.log, c.dns, c.transport, c.policy, c.api, c.stats, c.reverse, c.fakeDns,
     c.observatory, c.burstObservatory, c.metrics, c.geodata]
  }

  /** `Config.Equals`: every section byte for byte. */
  method ConfigEquals(c: Config, other: Config) returns (same: bool)
    ensures same <==> c == other
  {
    if |c.inbounds| != |other.inbounds| {
      return false;
    }
    for i := 0 to |c.inbounds|
      invariant c.inbounds[..i] == other.inbounds[..i]
    {
      if c.inbounds[i] != other.inbounds[i] {
        return false;
      }
    }
    assert c.inbounds[..|c.inbounds|] == c.inbounds && other.inbounds[..|other.inbounds|] == other.inbounds;
    same := StaticSections(c) == StaticSections(other) && c.router == other.router && c.outbounds == other.outbounds;
    if same {
      var s, t := StaticSections(c), StaticSections(other);
      assert forall i :: 0 <= i < 12 ==> s[i] == t[i];
    }
  }

  // ---------------------------------------------------------------- what handlers mean

  datatype Inbound = Inbound(
    port: int, protocol: string, listen: Meaning, settings: Meaning, streamSettings: Meaning, sniffing: Meaning)

  function InboundMeaning(ib: InboundConfig): Inbound {
    Inbound(ib.port, ib.protocol, MeaningOf(ib.listen), MeaningOf(ib.settings),
            MeaningOf(ib.streamSettings), MeaningOf(ib.sniffing))
  }

  function InboundEntries(ibs: seq<InboundConfig>): seq<Entry<Inbound>> {
    seq(|ibs|, i requires 0 <= i < |ibs| => Entry(ibs[i].tag, InboundMeaning(ibs[i])))
  }

  /** `inboundEqualNormalized`. */
  predicate InboundEqualNormalized(a: InboundConfig, b: InboundConfig) {
    && a.port == b.port
    && a.protocol == b.protocol
    && a.tag == b.tag
    && RawEqualNormalized(a.listen, b.listen)
    && RawEqualNormalized(a.settings, b.settings)
    && RawEqualNormalized(a.streamSettings, b.streamSettings)
    && RawEqualNormalized(a.sniffing, b.sniffing)
  }

  lemma InboundEqualDecidesMeaning(a: InboundConfig, b: InboundConfig)
    ensures InboundEqualNormalized(a, b) <==> a.tag == b.tag && InboundMeaning(a) == InboundMeaning(b)
    ensures InboundEqualNormalized(a, b) <==>
              && a.tag == b.tag && a.port == b.port && a.protocol == b.protocol && MeaningOf(a.listen) == MeaningOf(b.listen)
              && MeaningOf(a.settings) == MeaningOf(b.settings) && MeaningOf(a.sniffing) == MeaningOf(b.sniffing)
              && MeaningOf(a.streamSettings) == MeaningOf(b.streamSettings)
  {
    RawEqualDecidesMeaning(a.listen, b.listen);
    RawEqualDecidesMeaning(a.settings, b.settings);
    RawEqualDecidesMeaning(a.streamSettings, b.streamSettings);
    RawEqualDecidesMeaning(a.sniffing, b.sniffing);
  }

  /** A raw section `json.Marshal` can embed: empty (printed as null) or one whole value. */
  predicate ValidRaw(raw: string) { raw == "" || Unmarshal(raw).Some? }

  /** `json.Marshal(inbound)` succeeds. */
  predicate Marshals(ib: InboundConfig) {
    ValidRaw(ib.listen) && ValidRaw(ib.settings) && ValidRaw(ib.streamSettings) && ValidRaw(ib.sniffing)
  }

  /** Typed decoding matches a key to the field `tag` whatever its case. */
  predicate IsTagKey(key: string) {
    |key| == 3 && key[0] in "tT" && key[1] in "aA" && key[2] in "gG"
  }

  /** Letters of ASCII in lower case. */
  function Lowered(s: string): string {
    seq(|s|, i requires 0 <= i < |s| => if 'A' <= s[i] <= 'Z' then (s[i] as int + 32) as char else s[i])
  }

  lemma TagKeyExactly(key: string)
    ensures IsTagKey(key) <==> Lowered(key) == "tag"
  {
    var low := Lowered(key);
    if IsTagKey(key) {
      assert low[0] == 't' && low[1] == 'a' && low[2] == 'g';
    }
    if low == "tag" {
      assert low[0] == 't' && low[1] == 'a' && low[2] == 'g';
    }
  }

  /** The last string under such a key; null keeps the earlier one, any other value is an error. */
  function TagField(fs: seq<Field>, sofar: string): Option<string> {
    if fs == [] then Some(sofar)
    else if !IsTagKey(fs[0].key) then TagField(fs[1..], sofar)
    else
      match fs[0].value
      case SStr(t) => TagField(fs[1..], t)
      case SNull => TagField(fs[1..], sofar)
      case _ => None
  }

  /** `json.Unmarshal(raw, &struct{ Tag string })`; None is an error. */
  function UnmarshalTag(raw: string): Option<string> {
    match Unmarshal(raw)
    case None => None
    case Some(x) =>
      match x
      case SNull => Some("")
      case SObject(fs) => TagField(fs, "")
      case _ => None
  }

  /** `apiTagFromConfig`. */
  function ApiTag(api: string): string {
    if api != "" && UnmarshalTag(api).Some? && UnmarshalTag(api).value != "" then UnmarshalTag(api).value else "api"
  }

  /** The raw elements of the outbounds section, as `json.Unmarshal` into raw messages gives them. */
  function OutboundElements(raw: string): Option<seq<string>> {
    if raw == "" then Some([])
    else
      match Unmarshal(raw)
      case None => None
      case Some(x) =>
        match x
        case SNull => Some([])
        case SArray(es) => Some(seq(|es|, i requires 0 <= i < |es| => es[i].raw))
        case _ => None
  }

  /** Tag and meaning of each element; None when an element has no readable tag. */
  function OutboundEntries(raws: seq<string>): (entries: Option<seq<Entry<Meaning>>>)
    ensures entries.Some? ==> |entries.value| == |raws|
  {
    if raws == [] then Some([])
    else
      var last := raws[|raws| - 1];
      match OutboundEntries(raws[..|raws| - 1])
      case None => None
      case Some(es) =>
        if UnmarshalTag(last).None? then None else Some(es + [Entry(UnmarshalTag(last).value, MeaningOf(last))])
  }

  function Outbounds(raw: string): Option<seq<Entry<Meaning>>> {
    if OutboundElements(raw).None? then None else OutboundEntries(OutboundElements(raw).value)
  }

  lemma {:induction false} OutboundEntriesPrefix(raws: seq<string>, i: nat)
    requires i <= |raws| && OutboundEntries(raws).Some?
    ensures OutboundEntries(raws[..i]) == Some(OutboundEntries(raws).value[..i])
    decreases |raws|
  {
    if i == |raws| {
      assert raws[..i] == raws;
      assert OutboundEntries(raws).value[..i] == OutboundEntries(raws).value;
    } else {
      OutboundEntriesPrefix(raws[..|raws| - 1], i);
      assert raws[..|raws| - 1][..i] == raws[..i];
      assert OutboundEntries(raws).value[..i] == OutboundEntries(raws[..|raws| - 1]).value[..i];
    }
  }

  /** `routingWithoutReloadable`: the canonical text of the routing section less its reloadable keys. */
  function RoutingWithoutReloadable(raw: string): Option<string> {
    if raw == "" then Some("{}")
    else
      match ReadValue(raw)
      case None => None
      case Some((x, _)) =>
        match ValueOf(x)
        case Null => Some("null")
        case Object(m) => Some(Encode(Object(m - {"rules", "balancers"})))
        case _ => None
  }

  /** The tree that text stands for. */
  function RoutingRest(raw: string): Option<Value> {
    if raw == "" then Some(Object(map[]))
    else
      match ReadValue(raw)
      case None => None
      case Some((x, _)) =>
        match ValueOf(x)
        case Null => Some(Null)
        case Object(m) => Some(Object(m - {"rules", "balancers"}))
        case _ => None
  }

  lemma RoutingTextDecidesRest(a: string, b: string)
    ensures RoutingWithoutReloadable(a).Some? <==> RoutingRest(a).Some?
    ensures RoutingRest(a).Some? && RoutingRest(b).Some? ==>
              (RoutingWithoutReloadable(a) == RoutingWithoutReloadable(b) <==> RoutingRest(a) == RoutingRest(b))
  {
    RoutingText(a);
    RoutingText(b);
    if RoutingRest(a).Some? && RoutingRest(b).Some? && RoutingWithoutReloadable(a) == RoutingWithoutReloadable(b) {
      EncodeInjective(RoutingRest(a).value, RoutingRest(b).value);
    }
  }

  lemma RoutingText(raw: string)
    ensures RoutingRest(raw).Some? ==> WellFormed(RoutingRest(raw).value)
    ensures RoutingRest(raw).Some? ==> RoutingWithoutReloadable(raw) == Some(Encode(RoutingRest(raw).value))
    ensures RoutingRest(raw).None? ==> RoutingWithoutReloadable(raw).None?
  {
    if raw != "" {
      ReadWellFormed(raw);
    }
  }

  // ---------------------------------------------------------------- when a diff exists, and what it is

  predicate IsApiTag(tag: string, newCfg: Config) { tag == ApiTag(newCfg.api) || tag == "api" }

  function RawTable(ibs: seq<InboundConfig>): map<string, InboundConfig> {
    Table(RawEntries(ibs))
  }

  function RawEntries(ibs: seq<InboundConfig>): seq<Entry<InboundConfig>> {
    seq(|ibs|, i requires 0 <= i < |ibs| => Entry(ibs[i].tag, ibs[i]))
  }

  /** A changed or removed inbound that stands in the way of a hot apply. */
  predicate OldInboundAllows(ib: InboundConfig, newCfg: Config) {
    var news := Table(InboundEntries(newCfg.inbounds));
    Unchanged(Entry(ib.tag, InboundMeaning(ib)), news) ||
    (!IsApiTag(ib.tag, newCfg) && (ib.tag in RawTable(newCfg.inbounds) ==> Marshals(RawTable(newCfg.inbounds)[ib.tag])))
  }

  predicate NewInboundAllows(ib: InboundConfig, oldCfg: Config, newCfg: Config) {
    ib.tag in Table(InboundEntries(oldCfg.inbounds)) || (!IsApiTag(ib.tag, newCfg) && Marshals(ib))
  }

  ghost predicate InboundsAppliable(oldCfg: Config, newCfg: Config) {
    && Addressable(InboundEntries(oldCfg.inbounds))
    && Addressable(InboundEntries(newCfg.inbounds))
    && (forall i :: 0 <= i < |oldCfg.inbounds| ==> OldInboundAllows(oldCfg.inbounds[i], newCfg))
    && (forall i :: 0 <= i < |newCfg.inbounds| ==> NewInboundAllows(newCfg.inbounds[i], oldCfg, newCfg))
  }

  ghost predicate OutboundsAppliable(oldCfg: Config, newCfg: Config) {
    var olds, news := Outbounds(oldCfg.outbounds), Outbounds(newCfg.outbounds);
    && olds.Some? && news.Some?
    && Addressable(olds.value) && Addressable(news.value)
    && (olds.value == [] <==> news.value == [])
    && (olds.value != [] ==> olds.value[0] == news.value[0])
  }

  ghost predicate RoutingAppliable(oldCfg: Config, newCfg: Config) {
    oldCfg.router == newCfg.router ||
    (oldCfg.router != "" && newCfg.router != ""
     && RoutingRest(oldCfg.router).Some? && RoutingRest(oldCfg.router) == RoutingRest(newCfg.router))
  }

  /** The change touches only what the core reloads, and every handler can be addressed. */
  ghost predicate HotAppliable(oldCfg: Config, newCfg: Config) {
    && (forall i :: 0 <= i < 12 ==> MeaningOf(StaticSections(oldCfg)[i]) == MeaningOf(StaticSections(newCfg)[i]))
    && InboundsAppliable(oldCfg, newCfg)
    && OutboundsAppliable(oldCfg, newCfg)
    && RoutingAppliable(oldCfg, newCfg)
  }

  /** The operations, as values. */
  datatype Operations = Operations(
    removedInboundTags: seq<string>, addedInbounds: seq<InboundConfig>,
    removedOutboundTags: seq<string>, addedOutbounds: seq<string>, routing: Option<string>)

  const NO_OPERATIONS := Operations([], [], [], [], None)

  ghost predicate LeadsTo(oldCfg: Config, newCfg: Config, d: Operations)
    requires HotAppliable(oldCfg, newCfg)
  {
    var oldIn, newIn := InboundEntries(oldCfg.inbounds), InboundEntries(newCfg.inbounds);
    var oldOut, newOut := Outbounds(oldCfg.outbounds).value, Outbounds(newCfg.outbounds).value;
    && d.removedInboundTags == Removed(oldIn, Table(newIn))
    && InboundEntries(d.addedInbounds) == Added(oldIn, newIn)
    && (forall i :: 0 <= i < |d.addedInbounds| ==> Marshals(d.addedInbounds[i]))
    && d.removedOutboundTags == Removed(oldOut, Table(newOut))
    && OutboundEntries(d.addedOutbounds) == Some(Added(oldOut, newOut))
    && d.routing == if oldCfg.router == newCfg.router then None else Some(newCfg.router)
  }

  // ---------------------------------------------------------------- the code

  /** Go's `HotDiff` struct, filled in place by the three diff functions. */
  class HotDiff {
    var removedInboundTags: seq<string>
    var addedInbounds: seq<InboundConfig>
    var removedOutboundTags: seq<string>
    var addedOutbounds: seq<string>
    var routingConfig: Option<string>

    constructor ()
      ensures View() == NO_OPERATIONS
    {
      removedInboundTags, addedInbounds := [], [];
      removedOutboundTags, addedOutbounds := [], [];
      routingConfig := None;
    }

    ghost function View(): Operations
      reads this
    {
      Operations(removedInboundTags, addedInbounds, removedOutboundTags, addedOutbounds, routingConfig)
    }

    /** `Empty`. */
    predicate Empty(): (empty: bool)
      reads this
      ensures empty <==> View() == NO_OPERATIONS
    {
      |removedInboundTags| == 0 && |addedInbounds| == 0 &&
      |removedOutboundTags| == 0 && |addedOutbounds| == 0 && routingConfig == None
    }
  }

  lemma {:induction false} RawTableMeans(ibs: seq<InboundConfig>)
    ensures RawTable(ibs).Keys == Table(InboundEntries(ibs)).Keys
    ensures forall t :: t in RawTable(ibs) ==>
              RawTable(ibs)[t].tag == t && InboundMeaning(RawTable(ibs)[t]) == Table(InboundEntries(ibs))[t]
  {
    if ibs != [] {
      var init, last := ibs[..|ibs| - 1], ibs[|ibs| - 1];
      RawTableMeans(init);
      assert RawEntries(ibs)[..|ibs| - 1] == RawEntries(init);
      assert InboundEntries(ibs)[..|ibs| - 1] == InboundEntries(init);
    }
  }

  lemma InboundSnoc(ibs: seq<InboundConfig>, i: nat)
    requires i < |ibs|
    ensures InboundEntries(ibs[..i + 1]) == InboundEntries(ibs[..i]) + [Entry(ibs[i].tag, InboundMeaning(ibs[i]))]
    ensures RawEntries(ibs[..i + 1]) == RawEntries(ibs[..i]) + [Entry(ibs[i].tag, ibs[i])]
  {
    hide InboundMeaning;
  }

  /** What one more inbound does to a table of inbounds that can be addressed. */
  lemma InboundStep(inbounds: seq<InboundConfig>, i: nat)
    requires i < |inbounds| && Addressable(InboundEntries(inbounds[..i]))
    ensures inbounds[i].tag == "" || inbounds[i].tag in RawTable(inbounds[..i]) ==> !Addressable(InboundEntries(inbounds))
    ensures inbounds[i].tag != "" && inbounds[i].tag !in RawTable(inbounds[..i]) ==>
              Addressable(InboundEntries(inbounds[..i + 1]))
              && RawTable(inbounds[..i + 1]) == RawTable(inbounds[..i])[inbounds[i].tag := inbounds[i]]
  {
    hide InboundMeaning, Table, RawEntries;
    var tag, sofar := inbounds[i].tag, inbounds[..i];
    RawTableMeans(sofar);
    TableHolds(InboundEntries(sofar));
    assert InboundEntries(inbounds)[i].tag == tag;
    if tag in RawTable(sofar) {
      var k :| 0 <= k < i && InboundEntries(sofar)[k].tag == tag;
      assert InboundEntries(inbounds)[k].tag == tag;
    } else if tag != "" {
      InboundSnoc(inbounds, i);
      AppendNew(InboundEntries(sofar), Entry(tag, InboundMeaning(inbounds[i])));
      TakeOne(RawEntries(sofar), Entry(tag, inbounds[i]), map[]);
    }
  }

  /** `inboundsByTag`. */
  method InboundsByTag(inbounds: seq<InboundConfig>) returns (byTag: map<string, InboundConfig>, ok: bool)
    ensures ok <==> Addressable(InboundEntries(inbounds))
    ensures ok ==> byTag == RawTable(inbounds)
  {
    hide Addressable, InboundEntries, RawTable;
    byTag := map[];
    NoInbounds(inbounds[..0]);
    for i := 0 to |inbounds|
      invariant Addressable(InboundEntries(inbounds[..i]))
      invariant byTag == RawTable(inbounds[..i])
    {
      var tag := inbounds[i].tag;
      InboundStep(inbounds, i);
      if tag == "" {
        return map[], false;
      }
      if tag in byTag {
        return map[], false;
      }
      byTag := byTag[tag := inbounds[i]];
    }
    assert inbounds[..|inbounds|] == inbounds;
    ok := true;
  }

  lemma NoInbounds(inbounds: seq<InboundConfig>)
    requires inbounds == []
    ensures Addressable(InboundEntries(inbounds)) && RawTable(inbounds) == map[]
  {
  }

  lemma InboundAppend(ibs: seq<InboundConfig>, ib: InboundConfig)
    ensures InboundEntries(ibs + [ib]) == InboundEntries(ibs) + [Entry(ib.tag, InboundMeaning(ib))]
  {}

  /** What the two loops of `diffInbounds` test, in terms of meaning. */
  lemma OldInboundTest(ib: InboundConfig, newCfg: Config)
    ensures var newByTag, news := RawTable(newCfg.inbounds), Table(InboundEntries(newCfg.inbounds));
            var same := Unchanged(Entry(ib.tag, InboundMeaning(ib)), news);
            && (ib.tag in newByTag && InboundEqualNormalized(ib, newByTag[ib.tag]) <==> same)
            && (OldInboundAllows(ib, newCfg) <==>
                same || (!IsApiTag(ib.tag, newCfg) && (ib.tag in newByTag ==> Marshals(newByTag[ib.tag]))))
            && (ib.tag in newByTag <==> ib.tag in news)
            && (ib.tag in newByTag ==>
                  Entry(ib.tag, news[ib.tag]) == Entry(newByTag[ib.tag].tag, InboundMeaning(newByTag[ib.tag])))
  {
    RawTableMeans(newCfg.inbounds);
    if ib.tag in RawTable(newCfg.inbounds) {
      InboundEqualDecidesMeaning(ib, RawTable(newCfg.inbounds)[ib.tag]);
    }
  }

  lemma NewInboundTest(ib: InboundConfig, oldCfg: Config, newCfg: Config)
    ensures ib.tag in RawTable(oldCfg.inbounds) <==> ib.tag in Table(InboundEntries(oldCfg.inbounds))
    ensures NewInboundAllows(ib, oldCfg, newCfg) <==>
            ib.tag in RawTable(oldCfg.inbounds) || (!IsApiTag(ib.tag, newCfg) && Marshals(ib))
  {
    RawTableMeans(oldCfg.inbounds);
  }

  lemma InboundsDone(oldCfg: Config, newCfg: Config)
    ensures var olds, news := InboundEntries(oldCfg.inbounds), InboundEntries(newCfg.inbounds);
            Replaced(olds, Table(news)) + Fresh(news, Table(olds)) == Added(olds, news)
    ensures InboundEntries([]) == []
  {}

  /** `diffInbounds`. */
  method DiffInbounds(oldCfg: Config, newCfg: Config, diff: HotDiff) returns (ok: bool)
    requires diff.removedInboundTags == [] && diff.addedInbounds == []
    modifies diff
    ensures ok <==> InboundsAppliable(oldCfg, newCfg)
    ensures diff.removedOutboundTags == old(diff.removedOutboundTags)
    ensures diff.addedOutbounds == old(diff.addedOutbounds) && diff.routingConfig == old(diff.routingConfig)
    ensures ok ==>
              var olds, news := InboundEntries(oldCfg.inbounds), InboundEntries(newCfg.inbounds);
              && diff.removedInboundTags == Removed(olds, Table(news))
              && InboundEntries(diff.addedInbounds) == Added(olds, news)
              && forall i :: 0 <= i < |diff.addedInbounds| ==> Marshals(diff.addedInbounds[i])
  {
    hide MeaningOf, RawEqualNormalized, CanonicalJson, Unmarshal, UnmarshalTag, ApiTag, Marshals, InboundMeaning,
      InboundEntries, OldInboundAllows, NewInboundAllows, Table, Removed, Replaced, Fresh, Added, RawTable,
      InboundEqualNormalized, Unchanged;
    var oldByTag: map<string, InboundConfig>, newByTag: map<string, InboundConfig>;
    oldByTag, ok := InboundsByTag(oldCfg.inbounds);
    if !ok { return; }
    newByTag, ok := InboundsByTag(newCfg.inbounds);
    if !ok { return; }
    var apiTag := ApiTag(newCfg.api);
    ghost var olds, news := InboundEntries(oldCfg.inbounds), InboundEntries(newCfg.inbounds);
    InboundsDone(oldCfg, newCfg);
    NoneTaken(Table(news), Table(olds));
    assert oldCfg.inbounds[..0] == [] && newCfg.inbounds[..0] == [];
    for i := 0 to |oldCfg.inbounds|
      invariant diff.removedOutboundTags == old(diff.removedOutboundTags)
      invariant diff.addedOutbounds == old(diff.addedOutbounds) && diff.routingConfig == old(diff.routingConfig)
      invariant forall j :: 0 <= j < i ==> OldInboundAllows(oldCfg.inbounds[j], newCfg)
      invariant diff.removedInboundTags == Removed(InboundEntries(oldCfg.inbounds[..i]), Table(news))
      invariant InboundEntries(diff.addedInbounds) == Replaced(InboundEntries(oldCfg.inbounds[..i]), Table(news))
      invariant forall j :: 0 <= j < |diff.addedInbounds| ==> Marshals(diff.addedInbounds[j])
    {
      var oldIb := oldCfg.inbounds[i];
      InboundSnoc(oldCfg.inbounds, i);
      TakeOne(InboundEntries(oldCfg.inbounds[..i]), Entry(oldIb.tag, InboundMeaning(oldIb)), Table(news));
      OldInboundTest(oldIb, newCfg);
      if oldIb.tag in newByTag && InboundEqualNormalized(oldIb, newByTag[oldIb.tag]) {
        continue;
      }
      if oldIb.tag == apiTag || oldIb.tag == "api" {
        return false;
      }
      diff.removedInboundTags := diff.removedInboundTags + [oldIb.tag];
      if oldIb.tag in newByTag {
        var newIb := newByTag[oldIb.tag];
        if !Marshals(newIb) {
          return false;
        }
        InboundAppend(diff.addedInbounds, newIb);
        diff.addedInbounds := diff.addedInbounds + [newIb];
      }
    }
    assert oldCfg.inbounds[..|oldCfg.inbounds|] == oldCfg.inbounds;
    assert Replaced(olds, Table(news)) + [] == Replaced(olds, Table(news));
    for i := 0 to |newCfg.inbounds|
      invariant diff.removedOutboundTags == old(diff.removedOutboundTags)
      invariant diff.addedOutbounds == old(diff.addedOutbounds) && diff.routingConfig == old(diff.routingConfig)
      invariant forall j :: 0 <= j < i ==> NewInboundAllows(newCfg.inbounds[j], oldCfg, newCfg)
      invariant diff.removedInboundTags == Removed(olds, Table(news))
      invariant InboundEntries(diff.addedInbounds)
                == Replaced(olds, Table(news)) + Fresh(InboundEntries(newCfg.inbounds[..i]), Table(olds))
      invariant forall j :: 0 <= j < |diff.addedInbounds| ==> Marshals(diff.addedInbounds[j])
    {
      var newIb := newCfg.inbounds[i];
      InboundSnoc(newCfg.inbounds, i);
      TakeOne(InboundEntries(newCfg.inbounds[..i]), Entry(newIb.tag, InboundMeaning(newIb)), Table(olds));
      NewInboundTest(newIb, oldCfg, newCfg);
      if newIb.tag in oldByTag {
        continue;
      }
      if newIb.tag == apiTag || newIb.tag == "api" {
        return false;
      }
      if !Marshals(newIb) {
        return false;
      }
      InboundAppend(diff.addedInbounds, newIb);
      diff.addedInbounds := diff.addedInbounds + [newIb];
    }
    assert newCfg.inbounds[..|newCfg.inbounds|] == newCfg.inbounds;
    ok := true;
  }

  datatype OutboundEntry = OutboundEntry(tag: string, raw: string, norm: string)

  /** What one parsed entry stands for; its canonical text decides its meaning. */
  function EntryOf(e: OutboundEntry): Entry<Meaning> { Entry(e.tag, MeaningOf(e.raw)) }

  function EntriesOf(es: seq<OutboundEntry>): seq<Entry<Meaning>> {
    seq(|es|, i requires 0 <= i < |es| => EntryOf(es[i]))
  }

  predicate Normalized(es: seq<OutboundEntry>) {
    forall i :: 0 <= i < |es| ==> CanonicalJson(es[i].raw) == Some(es[i].norm) && UnmarshalTag(es[i].raw) == Some(es[i].tag)
  }

  lemma NormDecidesMeaning(a: OutboundEntry, b: OutboundEntry)
    requires CanonicalJson(a.raw) == Some(a.norm) && CanonicalJson(b.raw) == Some(b.norm)
    ensures a.norm == b.norm <==> MeaningOf(a.raw) == MeaningOf(b.raw)
  {
    RawEqualDecidesMeaning(a.raw, b.raw);
  }

  lemma ReadableHasCanonical(raw: string)
    requires UnmarshalTag(raw).Some?
    ensures CanonicalJson(raw).Some?
  {}

  /** An empty or repeated tag anywhere makes the list not addressable. */
  lemma NotAddressable<T>(es: seq<Entry<T>>, i: nat)
    requires i < |es| && (es[i].tag == "" || es[i].tag in Table(es[..i]))
    ensures !Addressable(es)
  {
    TableHolds(es[..i]);
    if es[i].tag in Table(es[..i]) {
      var k :| 0 <= k < i && es[..i][k].tag == es[i].tag;
      assert es[k].tag == es[i].tag;
    }
  }

  lemma EntriesAppend(es: seq<OutboundEntry>, e: OutboundEntry)
    ensures EntriesOf(es + [e]) == EntriesOf(es) + [EntryOf(e)]
    ensures EntriesOf([]) == []
  {}

  lemma OutboundAppend(raws: seq<string>, raw: string)
    requires OutboundEntries(raws).Some? && UnmarshalTag(raw).Some?
    ensures OutboundEntries(raws + [raw])
            == Some(OutboundEntries(raws).value + [Entry(UnmarshalTag(raw).value, MeaningOf(raw))])
  {
    assert (raws + [raw])[..|raws|] == raws;
  }

  /** The element at which the loop of `parseOutbounds` gives up spoils the whole list. */
  lemma ElementSpoils(raws: seq<string>, i: nat, tag: Option<string>)
    requires i < |raws| && tag == UnmarshalTag(raws[i]) && OutboundEntries(raws[..i]).Some?
    requires tag.Some? ==> tag.value == "" || tag.value in Table(OutboundEntries(raws[..i]).value)
    ensures OutboundEntries(raws).Some? ==> !Addressable(OutboundEntries(raws).value)
  {
    hide MeaningOf, UnmarshalTag, Table, Addressable;
    if OutboundEntries(raws).Some? {
      OutboundEntriesPrefix(raws, i);
      OutboundEntriesPrefix(raws, i + 1);
      assert raws[..i + 1] == raws[..i] + [raws[i]] && raws[..i + 1][..i] == raws[..i];
      var all := OutboundEntries(raws).value;
      assert all[..i + 1][i] == all[i];
      NotAddressable(all, i);
    }
  }

  /** `parseOutbounds`. */
  method ParseOutbounds(raw: string) returns (entries: seq<OutboundEntry>, ok: bool)
    ensures ok <==> Outbounds(raw).Some? && Addressable(Outbounds(raw).value)
    ensures ok ==> EntriesOf(entries) == Outbounds(raw).value && Normalized(entries)
  {
    hide MeaningOf, CanonicalJson, Unmarshal, UnmarshalTag, EntriesOf, Table;
    EmptyList();
    entries := [];
    if raw == "" {
      return [], true;
    }
    var elems := OutboundElements(raw);
    if elems == None {
      return [], false;
    }
    var raws := elems.value;
    var seen: set<string> := {};
    assert raws[..0] == [];
    hide OutboundEntries;
    for i := 0 to |raws|
      invariant OutboundEntries(raws[..i]) == Some(EntriesOf(entries))
      invariant Addressable(EntriesOf(entries)) && Normalized(entries)
      invariant seen == Table(EntriesOf(entries)).Keys
    {
      var elem := raws[i];
      assert raws[..i + 1] == raws[..i] + [elem];
      var tag := UnmarshalTag(elem);
      if tag == None {
        ElementSpoils(raws, i, tag);
        return [], false;
      }
      if tag.value == "" || tag.value in seen {
        ElementSpoils(raws, i, tag);
        return [], false;
      }
      seen := seen + {tag.value};
      var norm := CanonicalJson(elem);
      ReadableHasCanonical(elem);
      if norm == None {
        return [], false;
      }
      var e := OutboundEntry(tag.value, elem, norm.value);
      OutboundAppend(raws[..i], elem);
      EntriesAppend(entries, e);
      AppendNew(EntriesOf(entries), EntryOf(e));
      entries := entries + [e];
    }
    assert raws[..|raws|] == raws;
    ok := true;
  }

  lemma EmptyList()
    ensures EntriesOf([]) == [] && OutboundEntries([]) == Some([]) && Table(EntriesOf([])) == map[]
  {}

  /** The index `byTag` of a list of parsed outbounds. */
  method IndexOutbounds(es: seq<OutboundEntry>) returns (byTag: map<string, OutboundEntry>)
    requires Addressable(EntriesOf(es)) && Normalized(es)
    ensures byTag.Keys == Table(EntriesOf(es)).Keys
    ensures forall t :: t in byTag ==> EntryOf(byTag[t]) == Entry(t, Table(EntriesOf(es))[t]) && byTag[t] in es
  {
    hide MeaningOf, CanonicalJson, Unmarshal, UnmarshalTag, EntriesOf, Table, Normalized, Addressable;
    byTag := map[];
    EmptyList();
    assert es[..0] == [];
    for i := 0 to |es|
      invariant byTag.Keys == Table(EntriesOf(es[..i])).Keys
      invariant forall t :: t in byTag ==> EntryOf(byTag[t]) == Entry(t, Table(EntriesOf(es[..i]))[t]) && byTag[t] in es
    {
      byTag := byTag[es[i].tag := es[i]];
      TakeOne(EntriesOf(es[..i]), EntryOf(es[i]), map[]);
      assert es[..i + 1] == es[..i] + [es[i]];
      EntriesAppend(es[..i], es[i]);
    }
    assert es[..|es|] == es;
  }

  /** What the loops of `diffOutbounds` test, in terms of meaning. */
  lemma OutboundTest(from: seq<OutboundEntry>, i: nat, byTag: map<string, OutboundEntry>, es: seq<OutboundEntry>,
                     table: map<string, Meaning>)
    requires Normalized(from) && i < |from| && Normalized(es) && byTag.Keys == table.Keys
    requires forall t :: t in byTag ==> EntryOf(byTag[t]) == Entry(t, table[t]) && byTag[t] in es
    ensures var e := from[i];
            && (e.tag in byTag && e.norm == byTag[e.tag].norm <==> Unchanged(EntryOf(e), table))
            && (e.tag in byTag ==> UnmarshalTag(byTag[e.tag].raw) == Some(e.tag) && MeaningOf(byTag[e.tag].raw) == table[e.tag])
            && UnmarshalTag(e.raw) == Some(e.tag)
  {
    hide UnmarshalTag, MeaningOf, CanonicalJson;
    if from[i].tag in byTag {
      NormDecidesMeaning(from[i], byTag[from[i].tag]);
    }
  }

  lemma DefaultTest(a: seq<OutboundEntry>, b: seq<OutboundEntry>)
    requires Normalized(a) && Normalized(b) && a != [] && b != []
    ensures a[0].tag == b[0].tag && a[0].norm == b[0].norm <==> EntriesOf(a)[0] == EntriesOf(b)[0]
  {
    hide UnmarshalTag, MeaningOf, CanonicalJson;
    NormDecidesMeaning(a[0], b[0]);
  }

  /** `diffOutbounds`. */
  method DiffOutbounds(oldCfg: Config, newCfg: Config, diff: HotDiff) returns (ok: bool)
    requires diff.removedOutboundTags == [] && diff.addedOutbounds == []
    modifies diff
    ensures ok <==> OutboundsAppliable(oldCfg, newCfg)
    ensures diff.removedInboundTags == old(diff.removedInboundTags)
    ensures diff.addedInbounds == old(diff.addedInbounds) && diff.routingConfig == old(diff.routingConfig)
    ensures ok ==>
              var olds, news := Outbounds(oldCfg.outbounds).value, Outbounds(newCfg.outbounds).value;
              && diff.removedOutboundTags == Removed(olds, Table(news))
              && OutboundEntries(diff.addedOutbounds) == Some(Added(olds, news))
  {
    hide MeaningOf, CanonicalJson, Unmarshal, UnmarshalTag, Outbounds, Addressable, Normalized, Table, Removed,
      Replaced, Fresh, Unchanged;
    var oldOut: seq<OutboundEntry>, newOut: seq<OutboundEntry>;
    oldOut, ok := ParseOutbounds(oldCfg.outbounds);
    if !ok { return; }
    newOut, ok := ParseOutbounds(newCfg.outbounds);
    if !ok { return; }
    ghost var olds, news := EntriesOf(oldOut), EntriesOf(newOut);
    if (|oldOut| == 0) != (|newOut| == 0) {
      return false;
    }
    if |oldOut| > 0 {
      DefaultTest(oldOut, newOut);
      if oldOut[0].tag != newOut[0].tag || oldOut[0].norm != newOut[0].norm {
        return false;
      }
    }
    var oldByTag := IndexOutbounds(oldOut);
    var newByTag := IndexOutbounds(newOut);
    NoneTaken(Table(news), Table(olds));
    EmptyList();
    hide OutboundEntries, EntriesOf;
    assert oldOut[..0] == [] && newOut[..0] == [];
    for i := 0 to |oldOut|
      invariant diff.removedInboundTags == old(diff.removedInboundTags)
      invariant diff.addedInbounds == old(diff.addedInbounds) && diff.routingConfig == old(diff.routingConfig)
      invariant diff.removedOutboundTags == Removed(EntriesOf(oldOut[..i]), Table(news))
      invariant OutboundEntries(diff.addedOutbounds) == Some(Replaced(EntriesOf(oldOut[..i]), Table(news)))
    {
      var oldE := oldOut[i];
      TakeOne(EntriesOf(oldOut[..i]), EntryOf(oldE), Table(news));
      EntriesAppend(oldOut[..i], oldE);
      assert oldOut[..i + 1] == oldOut[..i] + [oldE];
      OutboundTest(oldOut, i, newByTag, newOut, Table(news));
      ghost var before := Replaced(EntriesOf(oldOut[..i]), Table(news));
      assert before + [] == before;
      if oldE.tag in newByTag && oldE.norm == newByTag[oldE.tag].norm {
        continue;
      }
      diff.removedOutboundTags := diff.removedOutboundTags + [oldE.tag];
      if oldE.tag in newByTag {
        OutboundAppend(diff.addedOutbounds, newByTag[oldE.tag].raw);
        diff.addedOutbounds := diff.addedOutbounds + [newByTag[oldE.tag].raw];
      }
    }
    assert oldOut[..|oldOut|] == oldOut;
    assert Replaced(olds, Table(news)) + [] == Replaced(olds, Table(news));
    for i := 0 to |newOut|
      invariant diff.removedInboundTags == old(diff.removedInboundTags)
      invariant diff.addedInbounds == old(diff.addedInbounds) && diff.routingConfig == old(diff.routingConfig)
      invariant diff.removedOutboundTags == Removed(olds, Table(news))
      invariant OutboundEntries(diff.addedOutbounds)
                == Some(Replaced(olds, Table(news)) + Fresh(EntriesOf(newOut[..i]), Table(olds)))
    {
      var newE := newOut[i];
      TakeOne(EntriesOf(newOut[..i]), EntryOf(newE), Table(olds));
      EntriesAppend(newOut[..i], newE);
      OutboundTest(newOut, i, newByTag, newOut, Table(news));
      assert newOut[..i + 1] == newOut[..i] + [newE];
      ghost var a, b := Replaced(olds, Table(news)), Fresh(EntriesOf(newOut[..i]), Table(olds));
      assert b + [] == b && (a + b) + [EntryOf(newE)] == a + (b + [EntryOf(newE)]);
      if newE.tag !in oldByTag {
        OutboundAppend(diff.addedOutbounds, newE.raw);
        diff.addedOutbounds := diff.addedOutbounds + [newE.raw];
      }
    }
    assert newOut[..|newOut|] == newOut;
    ok := true;
  }

  /** `diffRouting`. */
  method DiffRouting(oldCfg: Config, newCfg: Config, diff: HotDiff) returns (ok: bool)
    requires diff.routingConfig == None
    modifies diff
    ensures ok <==> RoutingAppliable(oldCfg, newCfg)
    ensures diff.removedInboundTags == old(diff.removedInboundTags) && diff.addedInbounds == old(diff.addedInbounds)
    ensures diff.removedOutboundTags == old(diff.removedOutboundTags) && diff.addedOutbounds == old(diff.addedOutbounds)
    ensures ok ==> diff.routingConfig == if oldCfg.router == newCfg.router then None else Some(newCfg.router)
  {
    if oldCfg.router == newCfg.router {
      return true;
    }
    if |oldCfg.router| == 0 || |newCfg.router| == 0 {
      return false;
    }
    RoutingTextDecidesRest(oldCfg.router, newCfg.router);
    RoutingTextDecidesRest(newCfg.router, oldCfg.router);
    var oldRest := RoutingWithoutReloadable(oldCfg.router);
    var newRest := RoutingWithoutReloadable(newCfg.router);
    if oldRest == None || newRest == None || oldRest != newRest {
      return false;
    }
    diff.routingConfig := Some(newCfg.router);
    ok := true;
  }

  /** `ComputeHotDiff`; None stands for a nil configuration. */
  method ComputeHotDiff(oldCfg: Option<Config>, newCfg: Option<Config>) returns (diff: HotDiff?, ok: bool)
    ensures ok <==> oldCfg.Some? && newCfg.Some? && HotAppliable(oldCfg.value, newCfg.value)
    ensures ok ==> diff != null && fresh(diff) && LeadsTo(oldCfg.value, newCfg.value, diff.View())
  {
    if oldCfg == None || newCfg == None {
      return null, false;
    }
    var olds, news := StaticSections(oldCfg.value), StaticSections(newCfg.value);
    for i := 0 to 12
      invariant forall j :: 0 <= j < i ==> MeaningOf(olds[j]) == MeaningOf(news[j])
    {
      RawEqualDecidesMeaning(olds[i], news[i]);
      if !RawEqualNormalized(olds[i], news[i]) {
        return null, false;
      }
    }
    var d := new HotDiff();
    ok := DiffInbounds(oldCfg.value, newCfg.value, d);
    if !ok { return null, false; }
    ok := DiffOutbounds(oldCfg.value, newCfg.value, d);
    if !ok { return null, false; }
    ok := DiffRouting(oldCfg.value, newCfg.value, d);
    if !ok { return null, false; }
    diff := d;
  }
}
