/**
Consequences of the hot-apply theorem: when it equals a restart, which handlers it leaves
alone, and what holds over every run of `RestartXray` (internal/web/service/xray.go:897-1003).
*/
module HotRuns {
  import opened Text
  import opened Json
  import opened JsonCanonical
  import opened TagDiff
  import opened HotDiff
  import opened HotApply

  // ---------------------------------------------------------------- hot apply against restart

  /**
  When the hot apply goes through, a restart would have given the same core exactly if the new
  configuration can be printed to the file a restart reads.
  */
  lemma HotApplyEqualsRestart(oldCfg: Config, newCfg: Config, d: Operations, c: Core)
    requires HotAppliable(oldCfg, newCfg) && LeadsTo(oldCfg, newCfg, d) && Load(oldCfg) == Some(c)
    ensures Printable(newCfg) ==> Apply(c, d).Some?
    ensures Apply(c, d).Some? ==> (Boot(newCfg) == Apply(c, d) <==> Printable(newCfg))
  {
    hide HotAppliable, LeadsTo, Apply, Load;
    HotApplyReachesNew(oldCfg, newCfg, d, c);
    if d.routing.Some? && Printable(newCfg) {
      RoutingIsNew(oldCfg, newCfg, d);
    }
  }

  lemma RoutingIsNew(oldCfg: Config, newCfg: Config, d: Operations)
    requires HotAppliable(oldCfg, newCfg) && LeadsTo(oldCfg, newCfg, d) && d.routing.Some?
    ensures newCfg.router != "" && d.routing == Some(newCfg.router)
  {}

  const BLANK_CONFIG := Config("", "", "", [], "", "", "", "", "", "", "", "", "", "", "")

  /** A configuration with one inbound, whose sniffing section is the text the database holds. */
  function WithSniffing(sniffing: string): Config {
    BLANK_CONFIG.(inbounds := [InboundConfig("", 0, "", "", "", "in", sniffing)])
  }

  /**
  The comparison reads only the first value of a section, the printer needs the whole text to
  be one value: a sniffing section with trailing text is taken for unchanged although no restart
  would survive it.
  */
  lemma TrailingTextIsNotSeen()
    ensures var oldCfg, newCfg := WithSniffing("{}"), WithSniffing("{}x");
            HotAppliable(oldCfg, newCfg) && Boot(oldCfg).Some? && Boot(newCfg).None?
  {
    var oldCfg, newCfg := WithSniffing("{}"), WithSniffing("{}x");
    var before, after := oldCfg.inbounds[0], newCfg.inbounds[0];
    OneInbound(before);
    OneInbound(after);
    SniffingText(before, after);
    BlankAppliable(oldCfg, newCfg);
    hide MeaningOf, Marshals, InboundMeaning, Outbounds, InboundEntries, RawTable, OutboundsAppliable, RoutingAppliable,
      Load, StaticSections;
    BlankLoads(oldCfg);
    assert InboundsAppliable(oldCfg, newCfg);
    assert !Marshals(newCfg.inbounds[0]);
  }

  lemma SniffingText(before: InboundConfig, after: InboundConfig)
    requires before == InboundConfig("", 0, "", "", "", "in", "{}") && after == before.(sniffing := "{}x")
    ensures InboundMeaning(before) == InboundMeaning(after) && Marshals(before) && !Marshals(after)
  {
    BraceTexts();
    hide ReadValue;
  }

  lemma BlankLoads(cfg: Config)
    requires cfg == BLANK_CONFIG.(inbounds := cfg.inbounds, api := cfg.api) && ValidRaw(cfg.api)
    requires Addressable(InboundEntries(cfg.inbounds))
    requires Outbounds("") == Some([]) && forall i :: 0 <= i < |cfg.inbounds| ==> Marshals(cfg.inbounds[i])
    ensures Boot(cfg).Some?
  {
    hide InboundEntries, Marshals, Load, Outbounds, LoadRouting, Printable, Addressable;
    NothingRouted();
    BlankPrints(cfg);
    LoadBuildsTables(cfg);
  }

  lemma NothingRouted()
    ensures LoadRouting("").Some? && Addressable<Meaning>([])
  {
  }

  lemma BlankPrints(cfg: Config)
    requires cfg == BLANK_CONFIG.(inbounds := cfg.inbounds, api := cfg.api) && ValidRaw(cfg.api)
    requires forall i :: 0 <= i < |cfg.inbounds| ==> Marshals(cfg.inbounds[i])
    ensures Printable(cfg)
  {
    hide Marshals, Unmarshal;
  }

  lemma OneInbound(ib: InboundConfig)
    requires ib.tag != ""
    ensures Addressable(InboundEntries([ib])) && Table(InboundEntries([ib])) == map[ib.tag := InboundMeaning(ib)]
    ensures RawTable([ib]) == map[ib.tag := ib]
  {
    hide InboundMeaning;
    var e, r := InboundEntries([ib]), RawEntries([ib]);
    assert e == [Entry(ib.tag, InboundMeaning(ib))] && r == [Entry(ib.tag, ib)];
    assert e[..0] == [] && r[..0] == [];
    assert Table(e[..0]) == map[] && Table(r[..0]) == map[];
    assert Table(r) == Table(r[..0])[ib.tag := ib];
  }

  /** Blank but for their inbounds and equal API sections, two configurations differ in handlers only. */
  lemma BlankAppliable(oldCfg: Config, newCfg: Config)
    requires oldCfg == BLANK_CONFIG.(inbounds := oldCfg.inbounds, api := oldCfg.api)
    requires newCfg == BLANK_CONFIG.(inbounds := newCfg.inbounds, api := newCfg.api)
    requires MeaningOf(oldCfg.api) == MeaningOf(newCfg.api)
    ensures forall i :: 0 <= i < 12 ==> MeaningOf(StaticSections(oldCfg)[i]) == MeaningOf(StaticSections(newCfg)[i])
    ensures Outbounds("") == Some([]) && OutboundsAppliable(oldCfg, newCfg) && RoutingAppliable(oldCfg, newCfg)
  {
    hide MeaningOf;
    assert OutboundEntries([]) == Some([]);
  }

  lemma BraceTexts()
    ensures ReadValue("{}") == Some((SObject([]), "")) && ReadValue("{}x") == Some((SObject([]), "x"))
    ensures Unmarshal("{}").Some? && Unmarshal("{}x").None?
  {
    ReadEmpty("");
    ReadEmpty("x");
    assert "{}" + "" == "{}" && "{}" + "x" == "{}x";
  }

  // ---------------------------------------------------------------- what a hot apply leaves alone

  /** The inbound whose tag the new API section names is never touched, nor is one tagged `api`. */
  lemma ApiInboundUntouched(oldCfg: Config, newCfg: Config, d: Operations)
    requires HotAppliable(oldCfg, newCfg) && LeadsTo(oldCfg, newCfg, d)
    ensures forall t :: t in d.removedInboundTags ==> !IsApiTag(t, newCfg)
    ensures forall i :: 0 <= i < |d.addedInbounds| ==> !IsApiTag(d.addedInbounds[i].tag, newCfg)
    ensures forall t :: IsApiTag(t, newCfg) && t in Table(InboundEntries(oldCfg.inbounds)) ==>
              Unchanged(Entry(t, Table(InboundEntries(oldCfg.inbounds))[t]), Table(InboundEntries(newCfg.inbounds)))
  {
    hide MeaningOf, ApiTag, Marshals, Outbounds, OutboundsAppliable, RoutingAppliable, RawTable;
    var olds, news := InboundEntries(oldCfg.inbounds), InboundEntries(newCfg.inbounds);
    TableHolds(olds);
    TableHolds(news);
    RemovedExactly(olds, Table(news));
    forall t | t in Table(olds) && IsApiTag(t, newCfg) ensures Unchanged(Entry(t, Table(olds)[t]), Table(news)) {
      var i :| 0 <= i < |olds| && olds[i].tag == t;
      assert OldInboundAllows(oldCfg.inbounds[i], newCfg);
    }
    AddedExactly(olds, news);
    TableHolds(Added(olds, news));
    forall i | 0 <= i < |d.addedInbounds| ensures !IsApiTag(d.addedInbounds[i].tag, newCfg) {
      var t := d.addedInbounds[i].tag;
      assert InboundEntries(d.addedInbounds)[i].tag == t;
      var k :| 0 <= k < |news| && news[k].tag == t;
      assert NewInboundAllows(newCfg.inbounds[k], oldCfg, newCfg);
    }
  }

  /** Sections with at most one field that decodes as `tag`. */
  function TagFields(fs: seq<Field>): nat {
    if fs == [] then 0 else (if IsTagKey(fs[0].key) then 1 else 0) + TagFields(fs[1..])
  }

  predicate PlainApi(api: string) {
    api == "" || (Unmarshal(api).Some? && (Unmarshal(api).value.SObject? ==> TagFields(Unmarshal(api).value.fields) <= 1))
  }

  /** The tag a value determines when only one key can supply it. */
  ghost predicate TagOfMembers(m: map<string, Value>, tag: Option<string>) {
    && ((forall k :: k in m ==> !IsTagKey(k)) ==> tag == Some(""))
    && (forall k :: k in m && IsTagKey(k) ==>
          tag == match m[k] case Str(t) => Some(t) case Null => Some("") case _ => None)
  }

  lemma {:induction false} NoTagField(fs: seq<Field>, sofar: string)
    requires TagFields(fs) == 0
    ensures TagField(fs, sofar) == Some(sofar) && forall k :: k in MembersOf(fs) ==> !IsTagKey(k)
  {
    if fs != [] {
      NoTagField(fs[1..], sofar);
    }
  }

  lemma {:induction false} OneTagField(fs: seq<Field>)
    requires TagFields(fs) <= 1
    ensures TagOfMembers(MembersOf(fs), TagField(fs, ""))
  {
    if fs != [] {
      if IsTagKey(fs[0].key) {
        NoTagField(fs[1..], "");
        match fs[0].value {
          case SStr(t) => NoTagField(fs[1..], t);
          case _ =>
        }
      } else {
        OneTagField(fs[1..]);
      }
    }
  }

  /** Equal API sections name the same inbound when the tag is written once and nothing trails. */
  lemma SameMeaningSameApiTag(a: string, b: string)
    requires PlainApi(a) && PlainApi(b) && MeaningOf(a) == MeaningOf(b)
    ensures ApiTag(a) == ApiTag(b) && NamedInboundKept(a, b)
  {
    NamedInboundKeptExactly(a, b);
    hide NamedInboundKept;
    PlainApiTag(a);
    PlainApiTag(b);
    if MeaningOf(a).Means? && MeaningOf(a).value.Object? {
      var m := MeaningOf(a).value.members;
      if k :| k in m && IsTagKey(k) {
        assert TagOfMembers(m, UnmarshalTag(a)) && TagOfMembers(m, UnmarshalTag(b));
      }
    }
  }

  lemma PlainApiTag(api: string)
    requires PlainApi(api)
    ensures MeaningOf(api).Nothing? ==> ApiTag(api) == "api"
    ensures MeaningOf(api).Means? && !MeaningOf(api).value.Object? ==> ApiTag(api) == "api"
    ensures MeaningOf(api).Means? && MeaningOf(api).value.Object? ==>
              api != "" && TagOfMembers(MeaningOf(api).value.members, UnmarshalTag(api))
    ensures !MeaningOf(api).Garbage?
  {
    if api != "" && Unmarshal(api).value.SObject? {
      OneTagField(Unmarshal(api).value.fields);
    }
  }

  // ---------------------------------------------------------------- the inbound the panel dials

  predicate Touches(d: Operations, tag: string) {
    tag in d.removedInboundTags || exists i :: 0 <= i < |d.addedInbounds| && d.addedInbounds[i].tag == tag
  }

  /** `refreshAPIPort`: the port of the first inbound tagged `api`, 0 without one. */
  function ApiPort(ibs: seq<InboundConfig>): int {
    if ibs == [] then 0 else if ibs[0].tag == "api" then ibs[0].port else ApiPort(ibs[1..])
  }

  /** Ports `XrayAPI.Init` accepts. */
  predicate Dials(port: int) { 0 < port <= 0xFFFF }

  /** The port on which a core listens under the tag `api`. */
  function CorePort(c: Core): int { if "api" in c.inbounds then c.inbounds["api"].port else 0 }

  predicate HasApi(ibs: seq<InboundConfig>) { exists i :: 0 <= i < |ibs| && ibs[i].tag == "api" }

  lemma {:induction false} ApiPortSnoc(ibs: seq<InboundConfig>, last: InboundConfig)
    ensures ApiPort(ibs + [last]) == if HasApi(ibs) then ApiPort(ibs) else if last.tag == "api" then last.port else 0
    ensures HasApi(ibs + [last]) <==> HasApi(ibs) || last.tag == "api"
  {
    var all := ibs + [last];
    assert all[|ibs|] == last;
    if ibs != [] {
      ApiPortSnoc(ibs[1..], last);
      assert all[1..] == ibs[1..] + [last];
      assert forall i :: 0 < i < |ibs| ==> ibs[i] == ibs[1..][i - 1];
      assert ibs[0] == all[0];
    }
  }

  /** The port found in the configuration is the one on which its core listens. */
  lemma {:induction false} LoadedPort(c: Core, ibs: seq<InboundConfig>)
    requires "api" !in c.inbounds && AddInbounds(c, InboundEntries(ibs)).Some?
    ensures var c' := AddInbounds(c, InboundEntries(ibs)).value;
            CorePort(c') == ApiPort(ibs) && ("api" in c'.inbounds <==> HasApi(ibs))
  {
    hide InboundMeaning;
    if ibs != [] {
      var init, last := ibs[..|ibs| - 1], ibs[|ibs| - 1];
      assert InboundEntries(ibs)[..|ibs| - 1] == InboundEntries(init);
      assert InboundEntries(ibs)[|ibs| - 1] == Entry(last.tag, InboundMeaning(last));
      LoadedPort(c, init);
      ApiPortSnoc(init, last);
      assert init + [last] == ibs;
      PortIsMeant(last);
    }
  }

  lemma PortIsMeant(ib: InboundConfig)
    ensures InboundMeaning(ib).port == ib.port
  {
  }

  lemma LoadKeepsPort(cfg: Config)
    requires Load(cfg).Some?
    ensures CorePort(Load(cfg).value) == ApiPort(cfg.inbounds)
  {
    hide Outbounds, LoadRouting, MeaningOf, StaticSections, InboundEntries;
    var blank := Blank(cfg, LoadRouting(cfg.router).value);
    OutboundsKeepInbounds(blank, Outbounds(cfg.outbounds).value);
    LoadedPort(AddOutbounds(blank, Outbounds(cfg.outbounds).value).value, cfg.inbounds);
  }

  lemma {:induction false} OutboundsKeepInbounds(c: Core, es: seq<Entry<Meaning>>)
    ensures AddOutbounds(c, es).Some? ==> AddOutbounds(c, es).value.inbounds == c.inbounds
  {
    if es != [] {
      OutboundsKeepInbounds(c, es[..|es| - 1]);
    }
  }

  /** The inbound tagged `api`, through which the panel talks, is never touched, and its port stays. */
  lemma ApiPortStays(oldCfg: Config, newCfg: Config, d: Operations)
    requires HotAppliable(oldCfg, newCfg) && LeadsTo(oldCfg, newCfg, d)
    ensures !Touches(d, "api") && ApiPort(oldCfg.inbounds) == ApiPort(newCfg.inbounds)
  {
    ApiInboundUntouched(oldCfg, newCfg, d);
    NewApiWasOld(oldCfg, newCfg);
    hide HotAppliable, LeadsTo, ApiTag, Table, InboundEntries, ApiPort, Addressable;
    TablePort(oldCfg.inbounds);
    TablePort(newCfg.inbounds);
    assert IsApiTag("api", newCfg);
  }

  lemma NewApiWasOld(oldCfg: Config, newCfg: Config)
    requires HotAppliable(oldCfg, newCfg)
    ensures Addressable(InboundEntries(oldCfg.inbounds)) && Addressable(InboundEntries(newCfg.inbounds))
    ensures "api" in Table(InboundEntries(newCfg.inbounds)) ==> "api" in Table(InboundEntries(oldCfg.inbounds))
  {
    hide MeaningOf, ApiTag, Marshals, OutboundsAppliable, RoutingAppliable, StaticSections, InboundMeaning, OldInboundAllows, Table;
    var news := InboundEntries(newCfg.inbounds);
    TableHolds(news);
    if "api" in Table(news) {
      var k :| 0 <= k < |news| && news[k].tag == "api";
      assert NewInboundAllows(newCfg.inbounds[k], oldCfg, newCfg) && IsApiTag("api", newCfg);
    }
  }

  lemma TablePort(ibs: seq<InboundConfig>)
    requires Addressable(InboundEntries(ibs))
    ensures var table := Table(InboundEntries(ibs));
            ApiPort(ibs) == if "api" in table then table["api"].port else 0
  {
    hide InboundMeaning, ApiPort;
    var es := InboundEntries(ibs);
    var blank := Blank(BLANK_CONFIG, NoRouter);
    AddInboundsIsAddAll(blank, es);
    AddAllWorks(map[], es);
    assert map[] + Table(es) == Table(es);
    LoadedPort(blank, ibs);
  }

  // ---------------------------------------------------------------- the inbound an API section names

  /** No hot apply from section `a` to section `b` that can dial the core touches the inbound whose tag `a` names. */
  ghost predicate NamedInboundKept(a: string, b: string) {
    forall oldCfg: Config, newCfg: Config, d: Operations ::
      oldCfg.api == a && newCfg.api == b && Dials(ApiPort(oldCfg.inbounds))
      && HotAppliable(oldCfg, newCfg) && LeadsTo(oldCfg, newCfg, d) ==>
        !Touches(d, ApiTag(a))
  }

  /**
  The diff guards the inbound whose tag the new API section names, not the one the old section named.
  For sections that compare as equal the latter is left alone by every hot apply if and only if both
  name the same tag or the old one names `api`; otherwise some hot apply removes it.
  */
  lemma NamedInboundKeptExactly(a: string, b: string)
    requires MeaningOf(a) == MeaningOf(b)
    ensures NamedInboundKept(a, b) <==> ApiTag(a) == ApiTag(b) || ApiTag(a) == "api"
  {
    hide HotAppliable, LeadsTo, ApiTag, MeaningOf, Boot, ApiPort;
    if ApiTag(a) == ApiTag(b) || ApiTag(a) == "api" {
      forall oldCfg: Config, newCfg: Config, d: Operations |
        oldCfg.api == a && newCfg.api == b && HotAppliable(oldCfg, newCfg) && LeadsTo(oldCfg, newCfg, d)
        ensures !Touches(d, ApiTag(a))
      {
        ApiInboundUntouched(oldCfg, newCfg, d);
      }
    } else {
      var oldCfg, newCfg, d := RemovesNamedInbound(a, b);
      assert Touches(d, ApiTag(a));
    }
  }

  /** The inbound through which the panel dials the core. */
  const API_INBOUND := InboundConfig("", 62789, "", "", "", "api", "")

  /** The inbound of the old tag is dropped from the new configuration; the one tagged `api` stays. */
  lemma RemovesNamedInbound(a: string, b: string) returns (oldCfg: Config, newCfg: Config, d: Operations)
    requires MeaningOf(a) == MeaningOf(b) && ApiTag(a) != ApiTag(b) && ApiTag(a) != "api"
    ensures oldCfg.api == a && newCfg.api == b && Dials(ApiPort(oldCfg.inbounds)) && Boot(oldCfg).Some?
    ensures HotAppliable(oldCfg, newCfg) && LeadsTo(oldCfg, newCfg, d)
    ensures API_INBOUND in oldCfg.inbounds && newCfg.inbounds == [API_INBOUND] && oldCfg != newCfg
    ensures d.removedInboundTags == [ApiTag(a)] && d.routing == None
  {
    var ib := InboundConfig("", 0, "", "", "", ApiTag(a), "");
    var kept, both := [API_INBOUND], [API_INBOUND, ib];
    oldCfg, newCfg := BLANK_CONFIG.(inbounds := both, api := a), BLANK_CONFIG.(inbounds := kept, api := b);
    d := Operations([ApiTag(a)], [], [], [], None);
    assert ValidRaw(a) && ib.tag != "";
    hide ApiTag, MeaningOf, ApiPort, HotAppliable, LeadsTo, Boot, ValidRaw;
    OldBoots(oldCfg, ib);
    DropIsHot(oldCfg, newCfg, d, API_INBOUND, ib);
    assert |oldCfg.inbounds| != |newCfg.inbounds|;
  }

  /** Dropping the second of two inbounds is hot-appliable, and one removal. */
  lemma DropIsHot(oldCfg: Config, newCfg: Config, d: Operations, x: InboundConfig, y: InboundConfig)
    requires oldCfg == BLANK_CONFIG.(inbounds := [x, y], api := oldCfg.api)
    requires newCfg == BLANK_CONFIG.(inbounds := [x], api := newCfg.api)
    requires MeaningOf(oldCfg.api) == MeaningOf(newCfg.api)
    requires x.tag != "" && y.tag != "" && x.tag != y.tag && !IsApiTag(y.tag, newCfg)
    requires d == Operations([y.tag], [], [], [], None)
    ensures HotAppliable(oldCfg, newCfg) && LeadsTo(oldCfg, newCfg, d)
  {
    BlankAppliable(oldCfg, newCfg);
    DropsSecond(oldCfg, newCfg, x, y);
    OneRemoved(x, y);
    NothingRemoved();
    NoOutbounds();
    hide MeaningOf, IsApiTag, OutboundsAppliable, RoutingAppliable, InboundsAppliable, Outbounds, InboundEntries,
      Added, Removed, Table, StaticSections;
  }

  lemma OldBoots(cfg: Config, ib: InboundConfig)
    requires cfg == BLANK_CONFIG.(inbounds := [API_INBOUND, ib], api := cfg.api) && ValidRaw(cfg.api)
    requires ib == InboundConfig("", 0, "", "", "", ib.tag, "") && ib.tag != "" && ib.tag != "api"
    ensures Boot(cfg).Some? && ApiPort(cfg.inbounds) == 62789
  {
    TwoInbounds(API_INBOUND, ib);
    BlankMarshals(API_INBOUND);
    BlankMarshals(ib);
    NoOutbounds();
    hide InboundEntries, Unmarshal, Load, Marshals, Table;
    BlankLoads(cfg);
  }

  /** The inbound side of that change. */
  lemma DropsSecond(oldCfg: Config, newCfg: Config, x: InboundConfig, y: InboundConfig)
    requires oldCfg.inbounds == [x, y] && newCfg.inbounds == [x] && x.tag != "" && y.tag != "" && x.tag != y.tag
    requires !IsApiTag(y.tag, newCfg)
    ensures InboundsAppliable(oldCfg, newCfg)
  {
    OneInbound(x);
    TwoInbounds(x, y);
    hide InboundMeaning, InboundEntries, RawTable, IsApiTag, Marshals, Table, Addressable;
    assert OldInboundAllows(y, newCfg) && OldInboundAllows(x, newCfg);
    assert NewInboundAllows(x, oldCfg, newCfg);
  }

  lemma BlankMarshals(ib: InboundConfig)
    requires ib.listen == ib.settings == ib.streamSettings == ib.sniffing == ""
    ensures Marshals(ib)
  {
  }

  lemma NoOutbounds()
    ensures OutboundEntries([]) == Some([])
  {
  }

  lemma TwoInbounds(x: InboundConfig, y: InboundConfig)
    requires x.tag != "" && y.tag != "" && x.tag != y.tag
    ensures Addressable(InboundEntries([x, y]))
    ensures Table(InboundEntries([x, y])) == map[x.tag := InboundMeaning(x), y.tag := InboundMeaning(y)]
  {
    hide InboundMeaning;
    OneInbound(x);
    var one := InboundEntries([x]);
    AppendNew(one, Entry(y.tag, InboundMeaning(y)));
    assert InboundEntries([x, y]) == one + [Entry(y.tag, InboundMeaning(y))];
  }

  lemma OneRemoved(x: InboundConfig, y: InboundConfig)
    requires x.tag != "" && y.tag != "" && x.tag != y.tag
    ensures var before, after := InboundEntries([x, y]), InboundEntries([x]);
            Removed(before, Table(after)) == [y.tag] && Added(before, after) == []
  {
    OneInbound(x);
    TwoInbounds(x, y);
    var e, f := Entry(x.tag, InboundMeaning(x)), Entry(y.tag, InboundMeaning(y));
    hide InboundMeaning, Table, Removed, Replaced, Fresh, Addressable;
    var none: seq<Entry<Inbound>> := [];
    assert InboundEntries([x]) == none + [e] && InboundEntries([x, y]) == (none + [e]) + [f];
    var after, before := Table(InboundEntries([x])), Table(InboundEntries([x, y]));
    NoneTaken(after, before);
    TakeOne(none, e, after);
    TakeOne(none + [e], f, after);
    TakeOne(none, e, before);
  }

  lemma NothingRemoved()
    ensures Removed<Meaning>([], map[]) == [] && Added<Meaning>([], []) == [] && Table<Meaning>([]) == map[]
    ensures InboundEntries([]) == []
  {
  }

  /** An API section with its services in place, which the panel passes on as it is written. */
  function ApiSection(x: string, y: string): (v: Value)
    ensures v.Object?
  {
    Object(map["services" := Array([Str("HandlerService"), Str("StatsService"), Str("RoutingService")]),
               "tag" := Str(x), "Tag" := Str(y)])
  }

  /** Its text with the members in a given order, such as {"services":[...],"tag":"x","Tag":"y"}. */
  function Written(v: Value, keys: seq<string>): string
    requires v.Object?
  {
    "{" + EncodeMembers(v, keys) + "}"
  }

  const TAG_LAST := ["services", "Tag", "tag"]
  const OTHER_LAST := ["services", "tag", "Tag"]

  /** The tag may be spelled in two ways; typed decoding takes the one that is written last. */
  lemma WrittenTag(x: string, y: string, keys: seq<string>, tag: string)
    requires (keys == TAG_LAST && tag == x) || (keys == OTHER_LAST && tag == y)
    ensures var text := Written(ApiSection(x, y), keys);
            MeaningOf(text) == Means(ApiSection(x, y)) && UnmarshalTag(text) == Some(tag)
  {
    hide ReadValue, ReadFields, EncodeMembers, Encode, ValueOf, WellFormed, MembersOf, FieldsOf, TagField;
    var v := ApiSection(x, y);
    SectionIsFit(x, y, keys);
    var fs := MembersReadBack(v, keys, "");
    FieldsGiveMembers(fs, v, keys);
    var u := EncodeMembers(v, keys) + ("}" + "");
    assert "}" + "" == "}" && Written(v, keys) == "{" + u;
    ReadObject(u, fs, "");
    TagOfFields(fs, v, keys, tag);
    AllMembers(v.members, keys);
    WholeText(Written(v, keys), fs, v);
  }

  lemma WrittenApiTag(x: string, y: string, keys: seq<string>, tag: string)
    requires ((keys == TAG_LAST && tag == x) || (keys == OTHER_LAST && tag == y)) && tag != ""
    ensures var text := Written(ApiSection(x, y), keys);
            MeaningOf(text) == Means(ApiSection(x, y)) && ApiTag(text) == tag
  {
    WrittenTag(x, y, keys, tag);
    hide MeaningOf, UnmarshalTag, EncodeMembers, ApiSection;
  }

  lemma SectionIsFit(x: string, y: string, keys: seq<string>)
    requires keys == TAG_LAST || keys == OTHER_LAST
    ensures WellFormed(ApiSection(x, y)) && forall k :: k in keys <==> k in ApiSection(x, y).members
  {
  }

  lemma AllMembers(members: map<string, Value>, keys: seq<string>)
    requires forall k :: k in keys <==> k in members
    ensures (map k | k in keys :: members[k]) == members
  {
  }

  lemma WholeText(text: string, fs: seq<Field>, v: Value)
    requires text != "" && ReadValue(text) == Some((SObject(fs), "")) && v == Object(MembersOf(fs))
    ensures Unmarshal(text) == Some(SObject(fs)) && MeaningOf(text) == Means(v)
  {
    hide ReadValue, MembersOf;
  }

  lemma TagOfFields(fs: seq<Field>, v: Value, keys: seq<string>, tag: string)
    requires v.Object? && |keys| == 3 && (forall k :: k in keys ==> k in v.members) && FieldsOf(fs, v, keys)
    requires IsTagKey(keys[1]) && IsTagKey(keys[2])
    requires !IsTagKey(keys[0]) && v.members[keys[1]].Str? && v.members[keys[2]] == Str(tag)
    ensures TagField(fs, "") == Some(tag)
  {
    hide MembersOf;
    assert fs[1].value.SStr? && fs[2].value == SStr(tag);
    hide ValueOf, FieldsOf, IsTagKey;
    var rest := fs[1..];
    assert rest[0] == fs[1] && rest[1..] == [fs[2]] && [fs[2]][1..] == [];
    assert TagField([fs[2]], fs[1].value.text) == TagField([fs[2]][1..], tag);
    assert TagField(rest, "") == TagField(rest[1..], fs[1].value.text);
    assert TagField(fs, "") == TagField(rest, "");
  }

  /**
  For all different tags `x` and `y` there are two texts of one API section, equal to the comparison,
  of which the first names `y` and the second `x`; a hot apply from the one to the other removes the
  inbound tagged `y`.
  */
  lemma ApiTagDependsOnMemberOrder(x: string, y: string) returns (oldCfg: Config, newCfg: Config, d: Operations)
    requires x != "" && y != "" && x != y && y != "api"
    ensures oldCfg.api == Written(ApiSection(x, y), OTHER_LAST) && newCfg.api == Written(ApiSection(x, y), TAG_LAST)
    ensures RawEqualNormalized(oldCfg.api, newCfg.api) && ApiTag(oldCfg.api) == y && ApiTag(newCfg.api) == x
    ensures Dials(ApiPort(oldCfg.inbounds)) && Boot(oldCfg).Some?
    ensures HotAppliable(oldCfg, newCfg) && LeadsTo(oldCfg, newCfg, d) && y in d.removedInboundTags
  {
    hide HotAppliable, LeadsTo, MeaningOf, ApiTag, Written, RawEqualNormalized, ApiSection, Boot, ApiPort, Dials;
    WrittenApiTag(x, y, OTHER_LAST, y);
    WrittenApiTag(x, y, TAG_LAST, x);
    var a, b := Written(ApiSection(x, y), OTHER_LAST), Written(ApiSection(x, y), TAG_LAST);
    RawEqualDecidesMeaning(a, b);
    oldCfg, newCfg, d := RemovesNamedInbound(a, b);
  }

  /** A diff is `Empty` exactly when handlers mean the same and the routing text is the same. */
  lemma EmptyExactly(oldCfg: Config, newCfg: Config, d: Operations)
    requires HotAppliable(oldCfg, newCfg) && LeadsTo(oldCfg, newCfg, d)
    ensures d == NO_OPERATIONS <==>
            && Table(InboundEntries(oldCfg.inbounds)) == Table(InboundEntries(newCfg.inbounds))
            && Table(Outbounds(oldCfg.outbounds).value) == Table(Outbounds(newCfg.outbounds).value)
            && oldCfg.router == newCfg.router
    ensures oldCfg == newCfg ==> d == NO_OPERATIONS
  {
    hide MeaningOf, Outbounds, RoutingAppliable, Table, Removed, Added, OldInboundAllows, NewInboundAllows;
    NothingToDo(InboundEntries(oldCfg.inbounds), InboundEntries(newCfg.inbounds));
    NothingToDo(Outbounds(oldCfg.outbounds).value, Outbounds(newCfg.outbounds).value);
    assert InboundEntries(d.addedInbounds) == [] <==> d.addedInbounds == [];
    assert OutboundEntries(d.addedOutbounds) == Some([]) <==> d.addedOutbounds == [];
  }

  // ---------------------------------------------------------------- runs

  /** The panel's view: the stored snapshot, the core process, None when it is not running, and the port to dial it. */
  datatype Panel = Panel(snapshot: Option<Config>, core: Option<Core>, apiPort: int)

  const NEW_PANEL := Panel(None, None, 0)

  /** One request and what the environment does meanwhile. */
  datatype Request =
    | Restart(cfg: Config, force: bool, needRestart: bool, ops: Operations, apiAnswers: bool, starts: bool)
    | Crash
    | Stop

  /** The port is found when the process was started, whether or not the core survives. */
  ghost function FullRestart(cfg: Config, starts: bool): Panel {
    Panel(Some(cfg), if starts then Boot(cfg) else None, if starts && Printable(cfg) then ApiPort(cfg.inbounds) else 0)
  }

  /** `RestartXray` with `tryHotApply`; a failed hot apply falls back to a full restart. */
  ghost function Step(p: Panel, r: Request): Panel {
    match r
    case Crash => p.(core := None)
    case Stop => p.(core := None)
    case Restart(cfg, force, needRestart, ops, apiAnswers, starts) =>
      if p.core == None || p.snapshot == None then FullRestart(cfg, starts)
      else
        var current := p.snapshot.value;
        if !force && current == cfg && !needRestart then p
        else if !force && current != cfg && HotAppliable(current, cfg) && LeadsTo(current, cfg, ops) then
          if ops == NO_OPERATIONS then p.(snapshot := Some(cfg))
          else if Dials(p.apiPort) && apiAnswers && Apply(p.core.value, ops).Some? then
            p.(snapshot := Some(cfg), core := Apply(p.core.value, ops))
          else FullRestart(cfg, starts)
        else FullRestart(cfg, starts)
  }

  ghost function Run(p: Panel, rs: seq<Request>): Panel {
    if rs == [] then p else Step(Run(p, rs[..|rs| - 1]), rs[|rs| - 1])
  }

  /** The stored snapshot describes the running core, and the stored port is that of its inbound `api`. */
  ghost predicate InStep(p: Panel) {
    p.core.Some? ==>
      && p.snapshot.Some? && Load(p.snapshot.value) == p.core
      && p.apiPort == ApiPort(p.snapshot.value.inbounds) == CorePort(p.core.value)
  }

  lemma StepKeepsInStep(p: Panel, r: Request)
    requires InStep(p)
    ensures InStep(Step(p, r))
    ensures r.Restart? && Step(p, r).core.Some? ==> Step(p, r).core == Load(r.cfg) && Step(p, r).snapshot == Some(r.cfg)
  {
    hide HotAppliable, LeadsTo, Apply, Load, CorePort, ApiPort, Printable, Dials;
    if r.Restart? {
      if Load(r.cfg).Some? {
        LoadKeepsPort(r.cfg);
      }
      if p.core.Some? && p.snapshot.Some? {
        var current := p.snapshot.value;
        if HotAppliable(current, r.cfg) && LeadsTo(current, r.cfg, r.ops) {
          HotApplyReachesNew(current, r.cfg, r.ops, p.core.value);
          ApiPortStays(current, r.cfg, r.ops);
          if r.ops == NO_OPERATIONS {
            NothingApplied(p.core.value);
          }
        }
      }
    }
  }

  lemma NothingApplied(c: Core)
    ensures Apply(c, NO_OPERATIONS) == Some(c)
  {}

  /**
  Over every run of restarts, hot applies, failed calls and crashes, the snapshot later
  comparisons use describes the running core, the port that is dialled is the one on which this core
  listens under the tag `api`, and a core that runs after a request for a configuration is the core
  that configuration stands for.
  */
  lemma {:induction false} EveryRunStaysInStep(rs: seq<Request>)
    ensures var p := Run(NEW_PANEL, rs);
            && InStep(p)
            && (p.core.Some? ==> p.apiPort == CorePort(p.core.value))
            && (rs != [] && rs[|rs| - 1].Restart? && p.core.Some? ==> p.core == Load(rs[|rs| - 1].cfg))
  {
    hide Step, CorePort;
    if rs != [] {
      EveryRunStaysInStep(rs[..|rs| - 1]);
      StepKeepsInStep(Run(NEW_PANEL, rs[..|rs| - 1]), rs[|rs| - 1]);
    }
  }

  /**
  What a request does to a running core: forced, or asked to restart for the same configuration, the process
  is started anew; the same configuration otherwise changes nothing; and a hot-appliable change reaches the
  new configuration's core even if no process could be started, provided the API can be reached, unless there
  is nothing to do, and the routing section is one whole value.
  */
  lemma RequestOutcome(p: Panel, r: Request)
    requires InStep(p) && p.core.Some? && r.Restart?
    ensures var same, q := p.snapshot == Some(r.cfg), Step(p, r);
            && (r.force || (same && r.needRestart) ==> q.core == if r.starts then Boot(r.cfg) else None)
            && (!r.force && same && !r.needRestart ==> q == p)
            && (!r.force && !same && !HotAppliable(p.snapshot.value, r.cfg) ==> q.core == if r.starts then Boot(r.cfg) else None)
            && (!r.force && !same && HotAppliable(p.snapshot.value, r.cfg) && LeadsTo(p.snapshot.value, r.cfg, r.ops)
                && (r.ops == NO_OPERATIONS || (Dials(p.apiPort) && r.apiAnswers && ValidRaw(r.cfg.router)))
                ==> q.core.Some? && q.core == Load(r.cfg) && q.snapshot == Some(r.cfg) && q.apiPort == p.apiPort)
  {
    hide HotAppliable, LeadsTo, Apply, Load, CorePort, ApiPort, Printable, Dials;
    var current := p.snapshot.value;
    if HotAppliable(current, r.cfg) && LeadsTo(current, r.cfg, r.ops) {
      HotApplyReachesNew(current, r.cfg, r.ops, p.core.value);
      NothingApplied(p.core.value);
      RouterReplaced(current, r.cfg, r.ops);
    }
  }

  lemma RouterReplaced(oldCfg: Config, newCfg: Config, d: Operations)
    requires HotAppliable(oldCfg, newCfg) && LeadsTo(oldCfg, newCfg, d)
    ensures d.routing.Some? ==> newCfg.router != ""
  {
    hide InboundsAppliable, OutboundsAppliable, MeaningOf, RoutingRest;
  }

  /** The removal happens in a run: a restart, then a hot apply after which the named inbound is gone. */
  lemma RunRemovesNamedInbound(a: string, b: string) returns (rs: seq<Request>)
    requires MeaningOf(a) == MeaningOf(b) && ApiTag(a) != ApiTag(b) && ApiTag(a) != "api"
    ensures |rs| == 2 && rs[0].Restart? && rs[1].Restart? && rs[0].cfg.api == a && rs[1].cfg.api == b && !rs[1].starts
    ensures var p, q := Run(NEW_PANEL, rs[..1]), Run(NEW_PANEL, rs);
            && p.core.Some? && ApiTag(a) in p.core.value.inbounds
            && q.core.Some? && ApiTag(a) !in q.core.value.inbounds
  {
    hide HotAppliable, LeadsTo, MeaningOf, ApiTag, ApiPort, Apply, Load, Printable, Step, Run;
    var oldCfg, newCfg, d := RemovesNamedInbound(a, b);
    var first, second := Restart(oldCfg, true, false, d, false, true), Restart(newCfg, false, false, d, true, false);
    rs := [first, second];
    TwoSteps(NEW_PANEL, first, second);
    var c := Boot(oldCfg).value;
    HotApplyReachesNew(oldCfg, newCfg, d, c);
    FirstStart(first);
    HotStep(Panel(Some(oldCfg), Some(c), ApiPort(oldCfg.inbounds)), second);
    RemovalApplied(oldCfg, newCfg, d, c);
  }

  lemma TwoSteps(p: Panel, first: Request, second: Request)
    ensures Run(p, [first, second][..1]) == Step(p, first) && Run(p, [first, second]) == Step(Step(p, first), second)
  {
    hide Step;
    assert [first, second][..1] == [first] && [first][..0] == [];
    assert Run(p, [first][..0]) == p;
  }

  lemma FirstStart(r: Request)
    requires r.Restart? && r.starts && Boot(r.cfg).Some?
    ensures Step(NEW_PANEL, r) == Panel(Some(r.cfg), Boot(r.cfg), ApiPort(r.cfg.inbounds))
  {
    hide Load, Printable, ApiPort;
  }

  lemma HotStep(p: Panel, r: Request)
    requires p.snapshot.Some? && p.core.Some? && Dials(p.apiPort)
    requires r.Restart? && !r.force && r.apiAnswers && p.snapshot != Some(r.cfg) && r.ops != NO_OPERATIONS
    requires HotAppliable(p.snapshot.value, r.cfg) && LeadsTo(p.snapshot.value, r.cfg, r.ops)
    requires Apply(p.core.value, r.ops).Some?
    ensures Step(p, r) == p.(snapshot := Some(r.cfg), core := Apply(p.core.value, r.ops))
  {
    hide HotAppliable, LeadsTo, Apply;
  }

  /** What was removed and is not in the new configuration was there and is gone. */
  lemma RemovalApplied(oldCfg: Config, newCfg: Config, d: Operations, c: Core)
    requires HotAppliable(oldCfg, newCfg) && LeadsTo(oldCfg, newCfg, d) && Load(oldCfg) == Some(c)
    requires newCfg.inbounds == [API_INBOUND]
    ensures Load(newCfg).Some?
    ensures forall t :: t in d.removedInboundTags && t != "api" ==> t in c.inbounds && t !in Load(newCfg).value.inbounds
  {
    hide MeaningOf, InboundMeaning, OldInboundAllows, NewInboundAllows, Outbounds, InboundEntries, StaticSections, RawTable;
    HotApplyReachesNew(oldCfg, newCfg, d, c);
    LoadBuildsTables(oldCfg);
    RoutingReachesNew(oldCfg, newCfg, c);
    LoadBuildsTables(newCfg);
    RemovedExactly(InboundEntries(oldCfg.inbounds), Table(InboundEntries(newCfg.inbounds)));
    OneInbound(API_INBOUND);
    hide Load, RoutingAppliable, OutboundsAppliable;
  }
}
