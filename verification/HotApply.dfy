/**
What a hot apply does to a running core (internal/web/service/xray.go:937-1003), and why it is
as good as a restart. The core is the state the API addresses: handlers by tag, the default
outbound, the routing rules, and the sections fixed at process start.
*/
module HotApply {
  import opened Text
  import opened Json
  import opened JsonCanonical
  import opened TagDiff
  import opened HotDiff

  datatype Routing = NoRouter | Router(rest: Value, rules: Option<Value>, balancers: Option<Value>)

  datatype Core = Core(
    statics: seq<Meaning>,
    inbounds: map<string, Inbound>, untaggedInbounds: seq<Inbound>,
    outbounds: map<string, Meaning>, untaggedOutbounds: seq<Meaning>, default: Option<Entry<Meaning>>,
    routing: Routing)

  // ---------------------------------------------------------------- the API of the core; None is an error

  function AddInbound(c: Core, e: Entry<Inbound>): Option<Core> {
    if e.tag == "" then Some(c.(untaggedInbounds := c.untaggedInbounds + [e.content]))
    else if e.tag in c.inbounds then None
    else Some(c.(inbounds := c.inbounds[e.tag := e.content]))
  }

  function RemoveInbound(c: Core, tag: string): Option<Core> {
    if tag in c.inbounds then Some(c.(inbounds := c.inbounds - {tag})) else None
  }

  /** The first outbound ever added is the default; the API can only append. */
  function AddOutbound(c: Core, e: Entry<Meaning>): Option<Core> {
    var d := c.(default := if c.default == None then Some(e) else c.default);
    if e.tag == "" then Some(d.(untaggedOutbounds := c.untaggedOutbounds + [e.content]))
    else if e.tag in c.outbounds then None
    else Some(d.(outbounds := c.outbounds[e.tag := e.content]))
  }

  function RemoveOutbound(c: Core, tag: string): Option<Core> {
    if tag !in c.outbounds then None
    else
      Some(c.(outbounds := c.outbounds - {tag},
              default := if c.default.Some? && c.default.value.tag == tag then None else c.default))
  }

  function Lookup(m: map<string, Value>, k: string): Option<Value> { if k in m then Some(m[k]) else None }

  /** `ApplyRoutingConfig`: the text must be one whole value; only rules and balancers change. */
  function ReplaceRules(c: Core, raw: string): Option<Core> {
    if c.routing.NoRouter? || Unmarshal(raw).None? then None
    else
      match ValueOf(Unmarshal(raw).value)
      case Null => Some(c.(routing := c.routing.(rules := None, balancers := None)))
      case Object(m) =>
        Some(c.(routing := c.routing.(rules := Lookup(m, "rules"), balancers := Lookup(m, "balancers"))))
      case _ => None
  }

  function AddInbounds(c: Core, es: seq<Entry<Inbound>>): Option<Core> {
    if es == [] then Some(c)
    else
      match AddInbounds(c, es[..|es| - 1])
      case None => None
      case Some(c') => AddInbound(c', es[|es| - 1])
  }

  function RemoveInbounds(c: Core, tags: seq<string>): Option<Core> {
    if tags == [] then Some(c)
    else
      match RemoveInbounds(c, tags[..|tags| - 1])
      case None => None
      case Some(c') => RemoveInbound(c', tags[|tags| - 1])
  }

  function AddOutbounds(c: Core, es: seq<Entry<Meaning>>): Option<Core> {
    if es == [] then Some(c)
    else
      match AddOutbounds(c, es[..|es| - 1])
      case None => None
      case Some(c') => AddOutbound(c', es[|es| - 1])
  }

  function RemoveOutbounds(c: Core, tags: seq<string>): Option<Core> {
    if tags == [] then Some(c)
    else
      match RemoveOutbounds(c, tags[..|tags| - 1])
      case None => None
      case Some(c') => RemoveOutbound(c', tags[|tags| - 1])
  }

  /**
  The order of `tryHotApply`: removals, then outbounds, then inbounds, then routing. The code goes on
  after a missing or taken tag; from a core in step neither occurs, so here they are failures.
  TagDiff.StaleTableExactly says what going on achieves from any other table.
  */
  function Apply(c: Core, d: Operations): Option<Core> {
    match RemoveInbounds(c, d.removedInboundTags)
    case None => None
    case Some(c1) =>
      match RemoveOutbounds(c1, d.removedOutboundTags)
      case None => None
      case Some(c2) =>
        if OutboundEntries(d.addedOutbounds).None? then None
        else
          match AddOutbounds(c2, OutboundEntries(d.addedOutbounds).value)
          case None => None
          case Some(c3) =>
            match AddInbounds(c3, InboundEntries(d.addedInbounds))
            case None => None
            case Some(c4) => if d.routing.None? then Some(c4) else ReplaceRules(c4, d.routing.value)
  }

  // ---------------------------------------------------------------- starting a core from a configuration

  function LoadRouting(raw: string): Option<Routing> {
    if raw == "" then Some(NoRouter)
    else
      match ReadValue(raw)
      case None => None
      case Some((x, _)) =>
        match ValueOf(x)
        case Null => Some(Router(Null, None, None))
        case Object(m) =>
          Some(Router(Object(m - {"rules", "balancers"}), Lookup(m, "rules"), Lookup(m, "balancers")))
        case _ => None
  }

  function Blank(cfg: Config, routing: Routing): Core {
    Core(seq(12, i requires 0 <= i < 12 => MeaningOf(StaticSections(cfg)[i])), map[], [], map[], [], None, routing)
  }

  /** The core a configuration stands for; None when no core can be built from it. */
  function Load(cfg: Config): Option<Core> {
    if LoadRouting(cfg.router).None? || Outbounds(cfg.outbounds).None? then None
    else
      match AddOutbounds(Blank(cfg, LoadRouting(cfg.router).value), Outbounds(cfg.outbounds).value)
      case None => None
      case Some(c) => AddInbounds(c, InboundEntries(cfg.inbounds))
  }

  /** `json.MarshalIndent(p.config)` succeeds: every raw section is empty or one whole value. */
  predicate Printable(cfg: Config) {
    && (forall i :: 0 <= i < 12 ==> ValidRaw(StaticSections(cfg)[i]))
    && ValidRaw(cfg.router)
    && ValidRaw(cfg.outbounds)
    && (forall i :: 0 <= i < |cfg.inbounds| ==> Marshals(cfg.inbounds[i]))
  }

  /** A restart: the configuration is printed to a file first, then loaded. */
  function Boot(cfg: Config): Option<Core> { if Printable(cfg) then Load(cfg) else None }

  // ---------------------------------------------------------------- the handler tables

  lemma {:induction false} AddInboundsIsAddAll(c: Core, es: seq<Entry<Inbound>>)
    requires forall i :: 0 <= i < |es| ==> es[i].tag != ""
    ensures AddInbounds(c, es) == match AddAll(c.inbounds, es) case None => None case Some(m) => Some(c.(inbounds := m))
  {
    if es != [] {
      AddInboundsIsAddAll(c, es[..|es| - 1]);
    }
  }

  lemma {:induction false} RemoveInboundsIsRemoveAll(c: Core, tags: seq<string>)
    ensures RemoveInbounds(c, tags)
            == match RemoveAll(c.inbounds, tags) case None => None case Some(m) => Some(c.(inbounds := m))
  {
    if tags != [] {
      RemoveInboundsIsRemoveAll(c, tags[..|tags| - 1]);
    }
  }

  lemma {:induction false} AddOutboundsIsAddAll(c: Core, es: seq<Entry<Meaning>>)
    requires forall i :: 0 <= i < |es| ==> es[i].tag != ""
    ensures AddOutbounds(c, es)
            == match AddAll(c.outbounds, es)
               case None => None
               case Some(m) =>
                 Some(c.(outbounds := m, default := if c.default == None && es != [] then Some(es[0]) else c.default))
  {
    if es != [] {
      AddOutboundsIsAddAll(c, es[..|es| - 1]);
    }
  }

  lemma {:induction false} RemoveOutboundsIsRemoveAll(c: Core, tags: seq<string>)
    requires c.default.Some? ==> c.default.value.tag !in tags
    ensures RemoveOutbounds(c, tags)
            == match RemoveAll(c.outbounds, tags) case None => None case Some(m) => Some(c.(outbounds := m))
  {
    if tags != [] {
      RemoveOutboundsIsRemoveAll(c, tags[..|tags| - 1]);
      assert tags == tags[..|tags| - 1] + [tags[|tags| - 1]];
    }
  }

  // ---------------------------------------------------------------- the core of an addressable configuration

  function DefaultOf(es: seq<Entry<Meaning>>): Option<Entry<Meaning>> { if es == [] then None else Some(es[0]) }

  /** When every handler can be addressed, loading builds exactly the two tables. */
  lemma LoadBuildsTables(cfg: Config)
    requires Outbounds(cfg.outbounds).Some? && Addressable(Outbounds(cfg.outbounds).value)
    requires Addressable(InboundEntries(cfg.inbounds)) && LoadRouting(cfg.router).Some?
    ensures var outs := Outbounds(cfg.outbounds).value;
            Load(cfg) == Some(Core(Blank(cfg, NoRouter).statics, Table(InboundEntries(cfg.inbounds)), [], Table(outs), [],
                                   DefaultOf(outs), LoadRouting(cfg.router).value))
  {
    hide MeaningOf, StaticSections, Outbounds, InboundEntries, ReadValue, ValueOf;
    var outs, ins := Outbounds(cfg.outbounds).value, InboundEntries(cfg.inbounds);
    var blank := Blank(cfg, LoadRouting(cfg.router).value);
    AddOutboundsIsAddAll(blank, outs);
    AddAllWorks(map[], outs);
    assert map[] + Table(outs) == Table(outs);
    var c := AddOutbounds(blank, outs).value;
    AddInboundsIsAddAll(c, ins);
    AddAllWorks(map[], ins);
    assert map[] + Table(ins) == Table(ins);
  }

  /** The handlers of a hot-appliable change: every operation is enabled, in the order it runs. */
  lemma HandlersReachNew(oldCfg: Config, newCfg: Config, d: Operations, c: Core)
    requires HotAppliable(oldCfg, newCfg) && LeadsTo(oldCfg, newCfg, d)
    requires var olds := Outbounds(oldCfg.outbounds).value;
             && c.inbounds == Table(InboundEntries(oldCfg.inbounds))
             && c.outbounds == Table(olds) && c.default == DefaultOf(olds)
    ensures var news := Outbounds(newCfg.outbounds).value;
            Apply(c, d.(routing := None))
            == Some(c.(inbounds := Table(InboundEntries(newCfg.inbounds)), outbounds := Table(news), default := DefaultOf(news)))
  {
    hide MeaningOf, Outbounds, InboundEntries, OutboundEntries, StaticSections, RoutingAppliable, OldInboundAllows,
      NewInboundAllows, Removed, Added, Table;
    var olds, news := Outbounds(oldCfg.outbounds).value, Outbounds(newCfg.outbounds).value;
    var oldIn, newIn := InboundEntries(oldCfg.inbounds), InboundEntries(newCfg.inbounds);
    DiffReachesNew(oldIn, newIn);
    DiffReachesNew(olds, news);
    AddedExactly(oldIn, newIn);
    AddedExactly(olds, news);
    RemoveInboundsIsRemoveAll(c, d.removedInboundTags);
    var c1 := RemoveInbounds(c, d.removedInboundTags).value;
    DefaultStays(olds, news);
    RemoveOutboundsIsRemoveAll(c1, d.removedOutboundTags);
    var c2 := RemoveOutbounds(c1, d.removedOutboundTags).value;
    AddOutboundsIsAddAll(c2, Added(olds, news));
    var c3 := AddOutbounds(c2, Added(olds, news)).value;
    AddInboundsIsAddAll(c3, Added(oldIn, newIn));
  }

  /** The default outbound is never removed, and none appears where there was none. */
  lemma DefaultStays(olds: seq<Entry<Meaning>>, news: seq<Entry<Meaning>>)
    requires Addressable(olds) && Addressable(news)
    requires olds == [] <==> news == []
    requires olds != [] ==> olds[0] == news[0]
    ensures olds != [] ==> olds[0].tag !in Removed(olds, Table(news))
    ensures olds == [] ==> Added(olds, news) == []
    ensures DefaultOf(olds) == DefaultOf(news)
  {
    if olds != [] {
      TableHolds(olds);
      TableHolds(news);
      RemovedExactly(olds, Table(news));
      assert news[0].tag in Table(news);
    }
  }

  lemma RoutingReachesNew(oldCfg: Config, newCfg: Config, c: Core)
    requires RoutingAppliable(oldCfg, newCfg) && LoadRouting(oldCfg.router) == Some(c.routing)
    ensures LoadRouting(newCfg.router).Some?
    ensures oldCfg.router != newCfg.router ==>
              ReplaceRules(c, newCfg.router)
              == if Unmarshal(newCfg.router).None? then None else Some(c.(routing := LoadRouting(newCfg.router).value))
  {}

  // ---------------------------------------------------------------- main theorem

  /**
  A hot apply leads a core that realises the old configuration to the core the new one stands
  for. No removal misses its handler and no addition meets a taken tag; the only step that can
  fail is the routing call, exactly when the new routing section is not one whole JSON value.
  */
  lemma HotApplyReachesNew(oldCfg: Config, newCfg: Config, d: Operations, c: Core)
    requires HotAppliable(oldCfg, newCfg) && LeadsTo(oldCfg, newCfg, d) && Load(oldCfg) == Some(c)
    ensures Load(newCfg).Some?
    ensures Apply(c, d) == if d.routing.Some? && Unmarshal(newCfg.router).None? then None else Load(newCfg)
  {
    LoadBuildsTables(oldCfg);
    RoutingReachesNew(oldCfg, newCfg, c);
    LoadBuildsTables(newCfg);
    HandlersReachNew(oldCfg, newCfg, d, c);
    var c4 := Apply(c, d.(routing := None)).value;
    assert c.statics == Load(newCfg).value.statics;
    if oldCfg.router != newCfg.router {
      RoutingReachesNew(oldCfg, newCfg, c4);
    }
  }

  // ---------------------------------------------------------------- refusals

  /** No operation changes the sections fixed at start, or the routing section but for its rules and balancers. */
  predicate SameFixed(c: Core, c': Core) {
    && c'.statics == c.statics && (c'.routing.NoRouter? <==> c.routing.NoRouter?)
    && (c.routing.Router? ==> c'.routing.rest == c.routing.rest)
  }

  lemma {:induction false} InboundsKeepFixed(c: Core, es: seq<Entry<Inbound>>, tags: seq<string>)
    ensures AddInbounds(c, es).Some? ==> SameFixed(c, AddInbounds(c, es).value)
    ensures RemoveInbounds(c, tags).Some? ==> SameFixed(c, RemoveInbounds(c, tags).value)
    decreases |es| + |tags|
  {
    if es != [] { InboundsKeepFixed(c, es[..|es| - 1], tags); }
    if tags != [] { InboundsKeepFixed(c, es, tags[..|tags| - 1]); }
  }

  lemma {:induction false} OutboundsKeepFixed(c: Core, es: seq<Entry<Meaning>>, tags: seq<string>)
    ensures AddOutbounds(c, es).Some? ==> SameFixed(c, AddOutbounds(c, es).value)
    ensures RemoveOutbounds(c, tags).Some? ==> SameFixed(c, RemoveOutbounds(c, tags).value)
    decreases |es| + |tags|
  {
    if es != [] { OutboundsKeepFixed(c, es[..|es| - 1], tags); }
    if tags != [] { OutboundsKeepFixed(c, es, tags[..|tags| - 1]); }
  }

  lemma ApplyKeepsFixed(c: Core, d: Operations)
    requires Apply(c, d).Some?
    ensures SameFixed(c, Apply(c, d).value)
  {
    hide AddInbounds, RemoveInbounds, AddOutbounds, RemoveOutbounds, OutboundEntries, InboundEntries, Unmarshal, ValueOf;
    InboundsKeepFixed(c, [], d.removedInboundTags);
    var c1 := RemoveInbounds(c, d.removedInboundTags).value;
    OutboundsKeepFixed(c1, [], d.removedOutboundTags);
    var c2 := RemoveOutbounds(c1, d.removedOutboundTags).value;
    OutboundsKeepFixed(c2, OutboundEntries(d.addedOutbounds).value, []);
    var c3 := AddOutbounds(c2, OutboundEntries(d.addedOutbounds).value).value;
    InboundsKeepFixed(c3, InboundEntries(d.addedInbounds), []);
  }

  lemma LoadedFixed(cfg: Config)
    requires Load(cfg).Some?
    ensures LoadRouting(cfg.router).Some? && SameFixed(Blank(cfg, LoadRouting(cfg.router).value), Load(cfg).value)
  {
    hide AddInbounds, AddOutbounds, InboundEntries, Outbounds, LoadRouting, MeaningOf, StaticSections;
    var blank := Blank(cfg, LoadRouting(cfg.router).value);
    OutboundsKeepFixed(blank, Outbounds(cfg.outbounds).value, []);
    InboundsKeepFixed(AddOutbounds(blank, Outbounds(cfg.outbounds).value).value, InboundEntries(cfg.inbounds), []);
  }

  lemma RoutingIsRest(raw: string)
    requires LoadRouting(raw).Some?
    ensures raw == "" <==> LoadRouting(raw).value.NoRouter?
    ensures raw != "" ==> RoutingRest(raw) == Some(LoadRouting(raw).value.rest)
  {
    hide ReadValue, ValueOf;
  }

  /**
  The diff refuses a change of a section the core cannot reload, and of the routing section beyond its
  rules and balancers, for good reason: no operations whatsoever lead to the new core.
  */
  lemma RefusalIsNeeded(oldCfg: Config, newCfg: Config, d: Operations, c: Core)
    requires Load(oldCfg) == Some(c) && Load(newCfg).Some?
    requires (exists i :: 0 <= i < 12 && MeaningOf(StaticSections(oldCfg)[i]) != MeaningOf(StaticSections(newCfg)[i]))
             || !RoutingAppliable(oldCfg, newCfg)
    ensures Apply(c, d) != Load(newCfg)
  {
    hide Load, Apply, LoadRouting, RoutingRest, MeaningOf;
    LoadedFixed(oldCfg);
    LoadedFixed(newCfg);
    RoutingIsRest(oldCfg.router);
    RoutingIsRest(newCfg.router);
    var a, b := Blank(oldCfg, LoadRouting(oldCfg.router).value), Blank(newCfg, LoadRouting(newCfg.router).value);
    if Apply(c, d) == Load(newCfg) {
      ApplyKeepsFixed(c, d);
      assert a.statics == b.statics;
      forall i | 0 <= i < 12 ensures MeaningOf(StaticSections(oldCfg)[i]) == MeaningOf(StaticSections(newCfg)[i]) {
        assert a.statics[i] == b.statics[i];
      }
    }
  }
}
