/**
What the sidecar manager promises (internal/mtproto/manager.go:154-255), as functions on its
state: which inbounds have a process, what each process was started for, and what was done so
far. Module MtgManager ties the code to these functions; here they are shown to converge.
*/
module MtgFleet {
  import opened Text
  import opened MtgConfig

  /** A managed process; `serial` tells processes apart. */
  datatype Slot = Slot(serial: nat, source: Instance, metricsPort: int, tag: string, running: bool)

  datatype Action = Sweep | Started(id: int)

  datatype Fleet = Fleet(slots: map<int, Slot>, swept: bool, actions: seq<Action>)

  /** What the system answers when a process is to be started: a port, a written file, a live process. */
  datatype Attempt = Attempt(port: Option<int>, written: bool, started: bool)

  predicate Succeeds(a: Attempt) { a.port.Some? && a.written && a.started }

  const EMPTY := Fleet(map[], false, [])

  // ---------------------------------------------------------------- operations

  function SweepOrphans(f: Fleet): Fleet {
    if f.swept then f else f.(swept := true, actions := f.actions + [Sweep])
  }

  /** The slot of `inst.id` is left alone: same fingerprint, still running. */
  predicate Matches(f: Fleet, inst: Instance) {
    inst.id in f.slots && Fingerprint(f.slots[inst.id].source) == Fingerprint(inst) && f.slots[inst.id].running
  }

  predicate Settled(f: Fleet, inst: Instance) { Matches(f, inst) && f.slots[inst.id].tag == inst.tag }

  function Ensured(f: Fleet, inst: Instance, a: Attempt): Fleet {
    if Matches(f, inst) then f.(slots := f.slots[inst.id := f.slots[inst.id].(tag := inst.tag)])
    else if Succeeds(a) then
      f.(slots := f.slots[inst.id := Slot(|f.actions|, inst, a.port.value, inst.tag, true)],
         actions := f.actions + [Started(inst.id)])
    else f.(slots := f.slots - {inst.id})
  }

  function Ids(desired: seq<Instance>): set<int> { set i | 0 <= i < |desired| :: desired[i].id }

  function Kept(f: Fleet, want: set<int>): Fleet { f.(slots := map id | id in f.slots && id in want :: f.slots[id]) }

  function EnsuredAll(f: Fleet, desired: seq<Instance>, attempts: seq<Attempt>): Fleet
    requires |attempts| == |desired|
  {
    if desired == [] then f
    else
      var n := |desired| - 1;
      Ensured(EnsuredAll(f, desired[..n], attempts[..n]), desired[n], attempts[n])
  }

  function Reconciled(f: Fleet, desired: seq<Instance>, attempts: seq<Attempt>): Fleet
    requires |attempts| == |desired|
  {
    EnsuredAll(Kept(SweepOrphans(f), Ids(desired)), desired, attempts)
  }

  // ---------------------------------------------------------------- one instance

  /** The slot's process was started for the instance, with the metrics port the system gave. */
  predicate StartedFor(f: Fleet, inst: Instance, a: Attempt) {
    && inst.id in f.slots && a.port.Some?
    && f.slots[inst.id].source == inst && f.slots[inst.id].metricsPort == a.port.value && f.slots[inst.id].running
  }

  lemma EnsuredOne(f: Fleet, inst: Instance, a: Attempt)
    ensures var f' := Ensured(f, inst, a);
            && (forall id :: id != inst.id ==> (id in f'.slots <==> id in f.slots))
            && (forall id :: id != inst.id && id in f.slots ==> f'.slots[id] == f.slots[id])
            && (inst.id in f'.slots <==> Matches(f, inst) || Succeeds(a))
            && (inst.id in f'.slots ==> Settled(f', inst))
            && (Matches(f, inst) ==> f'.slots[inst.id].serial == f.slots[inst.id].serial)
            && (!Matches(f, inst) && Succeeds(a) ==> StartedFor(f', inst, a))
            && (Settled(f, inst) ==> f' == f)
  {
    if Settled(f, inst) {
      assert f.slots[inst.id := f.slots[inst.id].(tag := inst.tag)] == f.slots;
    }
  }

  lemma EnsuredOther(f: Fleet, inst: Instance, a: Attempt, other: Instance)
    requires other.id != inst.id
    ensures var f' := Ensured(f, inst, a);
            && (other.id in f'.slots <==> other.id in f.slots)
            && (other.id in f.slots ==> f'.slots[other.id] == f.slots[other.id])
            && (Settled(f', other) <==> Settled(f, other))
  {
    hide Fingerprint;
    EnsuredOne(f, inst, a);
  }

  // ---------------------------------------------------------------- all desired instances

  predicate DistinctIds(desired: seq<Instance>) {
    forall i, j :: 0 <= i < j < |desired| ==> desired[i].id != desired[j].id
  }

  /** Ids nobody asked for keep their slot. */
  lemma {:induction false} EnsuredAllOthers(f: Fleet, desired: seq<Instance>, attempts: seq<Attempt>, id: int)
    requires |attempts| == |desired| && forall i :: 0 <= i < |desired| ==> desired[i].id != id
    ensures id in EnsuredAll(f, desired, attempts).slots <==> id in f.slots
    ensures id in f.slots ==> EnsuredAll(f, desired, attempts).slots[id] == f.slots[id]
  {
    if desired != [] {
      var n := |desired| - 1;
      EnsuredAllOthers(f, desired[..n], attempts[..n], id);
      EnsuredOne(EnsuredAll(f, desired[..n], attempts[..n]), desired[n], attempts[n]);
    }
  }

  /**
  Each instance is judged by its own state and its own attempt alone: it ends up managed exactly
  when its process matched or could be started, settled if so, and its process is kept if it matched.
  */
  lemma {:induction false} EnsuredAllOwn(f: Fleet, desired: seq<Instance>, attempts: seq<Attempt>, i: nat)
    requires |attempts| == |desired| && DistinctIds(desired) && i < |desired|
    ensures var f', inst := EnsuredAll(f, desired, attempts), desired[i];
            && (inst.id in f'.slots <==> Matches(f, inst) || Succeeds(attempts[i]))
            && (inst.id in f'.slots ==> Settled(f', inst))
            && (Matches(f, inst) ==> f'.slots[inst.id].serial == f.slots[inst.id].serial)
            && (!Matches(f, inst) && Succeeds(attempts[i]) ==> StartedFor(f', inst, attempts[i]))
  {
    var n := |desired| - 1;
    var before := EnsuredAll(f, desired[..n], attempts[..n]);
    assert EnsuredAll(f, desired, attempts) == Ensured(before, desired[n], attempts[n]);
    hide Ensured, EnsuredAll, Succeeds, Fingerprint;
    if i < n {
      hide Matches, Settled;
      EnsuredAllOwn(f, desired[..n], attempts[..n], i);
      EnsuredOther(before, desired[n], attempts[n], desired[i]);
    } else {
      EnsuredOne(before, desired[n], attempts[n]);
      EnsuredAllOthers(f, desired[..n], attempts[..n], desired[n].id);
    }
  }

  lemma {:induction false} EnsuredAllKeys(f: Fleet, desired: seq<Instance>, attempts: seq<Attempt>)
    requires |attempts| == |desired|
    ensures EnsuredAll(f, desired, attempts).slots.Keys <= f.slots.Keys + Ids(desired)
    ensures EnsuredAll(f, desired, attempts).swept == f.swept
  {
    hide Matches, Settled, Succeeds, StartedFor, Fingerprint;
    if desired != [] {
      var n := |desired| - 1;
      EnsuredAllKeys(f, desired[..n], attempts[..n]);
      EnsuredOne(EnsuredAll(f, desired[..n], attempts[..n]), desired[n], attempts[n]);
      assert forall i :: 0 <= i < n ==> desired[..n][i].id == desired[i].id;
      assert Ids(desired[..n]) <= Ids(desired) && desired[n].id in Ids(desired);
    }
  }

  // ---------------------------------------------------------------- main results

  /**
  Reconciling converges: the managed ids are exactly the desired ones whose process matched or
  could be started, each is settled, a matching process is not restarted, and a failed start
  concerns its own id only.
  */
  lemma ReconcileConverges(f: Fleet, desired: seq<Instance>, attempts: seq<Attempt>)
    requires |attempts| == |desired| && DistinctIds(desired)
    ensures var f' := Reconciled(f, desired, attempts);
            && f'.slots.Keys <= Ids(desired)
            && forall i :: 0 <= i < |desired| ==>
                 var inst := desired[i];
                 && (inst.id in f'.slots <==> Matches(f, inst) || Succeeds(attempts[i]))
                 && (inst.id in f'.slots ==> Settled(f', inst))
                 && (Matches(f, inst) ==> f'.slots[inst.id].serial == f.slots[inst.id].serial)
                 && (!Matches(f, inst) && Succeeds(attempts[i]) ==> StartedFor(f', inst, attempts[i]))
    ensures (forall i :: 0 <= i < |attempts| ==> Succeeds(attempts[i])) ==>
              Reconciled(f, desired, attempts).slots.Keys == Ids(desired)
  {
    hide Settled, EnsuredAll;
    var k := Kept(SweepOrphans(f), Ids(desired));
    EnsuredAllKeys(k, desired, attempts);
    forall i | 0 <= i < |desired|
      ensures var inst, f' := desired[i], Reconciled(f, desired, attempts);
              && (inst.id in f'.slots <==> Matches(f, inst) || Succeeds(attempts[i]))
              && (inst.id in f'.slots ==> Settled(f', inst))
              && (Matches(f, inst) ==> f'.slots[inst.id].serial == f.slots[inst.id].serial)
              && (!Matches(f, inst) && Succeeds(attempts[i]) ==> StartedFor(f', inst, attempts[i]))
    {
      EnsuredAllOwn(k, desired, attempts, i);
      assert desired[i].id in Ids(desired);
    }
  }

  /** Nothing to do for an instance: it is settled, or it is not managed and cannot be started. */
  predicate Idle(f: Fleet, inst: Instance, a: Attempt) { Settled(f, inst) || (inst.id !in f.slots && !Succeeds(a)) }

  lemma {:induction false} IdleChangesNothing(f: Fleet, desired: seq<Instance>, attempts: seq<Attempt>)
    requires |attempts| == |desired| && forall i :: 0 <= i < |desired| ==> Idle(f, desired[i], attempts[i])
    ensures EnsuredAll(f, desired, attempts) == f
  {
    if desired != [] {
      var n := |desired| - 1;
      IdleChangesNothing(f, desired[..n], attempts[..n]);
      IdleOne(f, desired[n], attempts[n]);
    }
  }

  lemma IdleOne(f: Fleet, inst: Instance, a: Attempt)
    requires Idle(f, inst, a)
    ensures Ensured(f, inst, a) == f
  {
    hide Fingerprint;
    EnsuredOne(f, inst, a);
    if inst.id !in f.slots {
      assert f.slots - {inst.id} == f.slots;
    }
  }

  /**
  A second reconciliation, with no crash in between, changes nothing if and only if every desired
  instance matched before the first one, was started by it, or cannot be started by the second either.
  */
  lemma SecondReconcileIsIdle(f: Fleet, desired: seq<Instance>, attempts: seq<Attempt>, again: seq<Attempt>)
    requires |attempts| == |desired| == |again| && DistinctIds(desired)
    ensures var f' := Reconciled(f, desired, attempts);
            Reconciled(f', desired, again) == f' <==>
              forall i :: 0 <= i < |desired| ==> Matches(f, desired[i]) || Succeeds(attempts[i]) || !Succeeds(again[i])
  {
    hide EnsuredAll, Matches, Settled, Succeeds;
    var f' := Reconciled(f, desired, attempts);
    ReconcileConverges(f, desired, attempts);
    ReconcileConverges(f', desired, again);
    EnsuredAllKeys(Kept(SweepOrphans(f), Ids(desired)), desired, attempts);
    AllWanted(f', desired);
    if forall i :: 0 <= i < |desired| ==> Matches(f, desired[i]) || Succeeds(attempts[i]) || !Succeeds(again[i]) {
      forall i | 0 <= i < |desired| ensures Idle(f', desired[i], again[i]) {}
      IdleChangesNothing(f', desired, again);
    } else {
      var i :| 0 <= i < |desired| && !(Matches(f, desired[i]) || Succeeds(attempts[i]) || !Succeeds(again[i]));
      assert desired[i].id in Reconciled(f', desired, again).slots && desired[i].id !in f'.slots;
    }
  }

  lemma AllWanted(f: Fleet, desired: seq<Instance>)
    requires f.slots.Keys <= Ids(desired) && f.swept
    ensures Kept(SweepOrphans(f), Ids(desired)) == f
  {
    assert (map id | id in f.slots && id in Ids(desired) :: f.slots[id]) == f.slots;
  }

  /** A settled process runs the file that would be rendered for the desired instance now. */
  lemma SettledRunsDesired(quote: string -> string, f: Fleet, inst: Instance)
    requires Settled(f, inst) && !Ambiguous(inst)
    ensures var s := f.slots[inst.id];
            s.running && RenderConfig(quote, s.source, s.metricsPort) == RenderConfig(quote, inst, s.metricsPort)
  {
    hide RenderConfig, Ambiguous, Fingerprint;
    UnambiguousDecides(quote, inst);
  }

  // ---------------------------------------------------------------- runs

  datatype Request =
    | Ensure(inst: Instance, attempt: Attempt)
    | Remove(id: int)
    | Reconcile(desired: seq<Instance>, attempts: seq<Attempt>)
    | StopAll
    | Crash(id: int)

  function Step(f: Fleet, r: Request): Fleet
    requires r.Reconcile? ==> |r.attempts| == |r.desired|
  {
    match r
    case Ensure(inst, a) => Ensured(SweepOrphans(f), inst, a)
    case Remove(id) => f.(slots := f.slots - {id})
    case Reconcile(desired, attempts) => Reconciled(f, desired, attempts)
    case StopAll => f.(slots := map[])
    case Crash(id) => if id in f.slots then f.(slots := f.slots[id := f.slots[id].(running := false)]) else f
  }

  predicate Requests(rs: seq<Request>) {
    forall i :: 0 <= i < |rs| ==> rs[i].Reconcile? ==> |rs[i].attempts| == |rs[i].desired|
  }

  function Run(rs: seq<Request>): Fleet
    requires Requests(rs)
  {
    if rs == [] then EMPTY else Step(Run(rs[..|rs| - 1]), rs[|rs| - 1])
  }

  /** The sweep ran at most once, before anything was started; every process was started by us. */
  predicate SweptFirst(f: Fleet) {
    && (f.swept <==> f.actions != [])
    && (f.actions != [] ==> f.actions[0] == Sweep)
    && (forall i :: 0 < i < |f.actions| ==> f.actions[i] != Sweep)
    && (forall id :: id in f.slots ==> 0 < f.slots[id].serial < |f.actions| && f.actions[f.slots[id].serial] == Started(id))
  }

  lemma EnsuredSweptFirst(f: Fleet, inst: Instance, a: Attempt)
    requires SweptFirst(f) && f.swept
    ensures SweptFirst(Ensured(f, inst, a)) && Ensured(f, inst, a).swept
  {
    hide Fingerprint;
  }

  lemma {:induction false} EnsuredAllSweptFirst(f: Fleet, desired: seq<Instance>, attempts: seq<Attempt>)
    requires |attempts| == |desired| && SweptFirst(f) && f.swept
    ensures SweptFirst(EnsuredAll(f, desired, attempts)) && EnsuredAll(f, desired, attempts).swept
  {
    if desired != [] {
      var n := |desired| - 1;
      EnsuredAllSweptFirst(f, desired[..n], attempts[..n]);
      EnsuredSweptFirst(EnsuredAll(f, desired[..n], attempts[..n]), desired[n], attempts[n]);
    }
  }

  /**
  Over every run the orphan sweep happens at most once and before the first start, and no
  two managed inbounds share a process.
  */
  lemma {:induction false} EveryRunSweepsFirst(rs: seq<Request>)
    requires Requests(rs)
    ensures SweptFirst(Run(rs))
    ensures forall i, j :: i in Run(rs).slots && j in Run(rs).slots && i != j ==> Run(rs).slots[i].serial != Run(rs).slots[j].serial
  {
    if rs != [] {
      var n := |rs| - 1;
      EveryRunSweepsFirst(rs[..n]);
      var f := Run(rs[..n]);
      match rs[n]
      case Ensure(inst, a) => EnsuredSweptFirst(SweepOrphans(f), inst, a);
      case Reconcile(desired, attempts) =>
        EnsuredAllSweptFirst(Kept(SweepOrphans(f), Ids(desired)), desired, attempts);
      case _ =>
    }
  }

  // ---------------------------------------------------------------- what runs after a run

  /**
  After any run that ends in a reconciliation, every managed desired id whose fingerprint can be read
  in one way only runs, with the file the panel would render for it now.
  */
  lemma ReconciledRunsDesired(quote: string -> string, rs: seq<Request>, i: nat)
    requires rs != [] && Requests(rs)
    requires var last := rs[|rs| - 1];
             last.Reconcile? && DistinctIds(last.desired) && i < |last.desired| && !Ambiguous(last.desired[i])
    ensures var f, inst := Run(rs), rs[|rs| - 1].desired[i];
            inst.id in f.slots ==>
              && f.slots[inst.id].running
              && RenderConfig(quote, f.slots[inst.id].source, f.slots[inst.id].metricsPort)
                 == RenderConfig(quote, inst, f.slots[inst.id].metricsPort)
  {
    hide Reconciled, RenderConfig, Fingerprint, Ambiguous;
    var n := |rs| - 1;
    var inst := rs[n].desired[i];
    ReconcileConverges(Run(rs[..n]), rs[n].desired, rs[n].attempts);
    if inst.id in Run(rs).slots {
      SettledRunsDesired(quote, Run(rs), inst);
    }
  }

  /** The condition is exact: for every other instance some run leaves a process with another file running. */
  lemma AmbiguousRunsAnother(quote: string -> string, inst: Instance) returns (rs: seq<Request>)
    requires SelfDelimiting(quote) && Ambiguous(inst)
    ensures rs != [] && Requests(rs) && rs[|rs| - 1].Reconcile? && rs[|rs| - 1].desired == [inst]
    ensures var f := Run(rs);
            && inst.id in f.slots && f.slots[inst.id].running
            && RenderConfig(quote, f.slots[inst.id].source, f.slots[inst.id].metricsPort)
               != RenderConfig(quote, inst, f.slots[inst.id].metricsPort)
  {
    hide RenderConfig, Ambiguous, SelfDelimiting, Fingerprint;
    FingerprintDecidesConfig(quote, inst);
    var b, port :| Fingerprint(inst) == Fingerprint(b) && RenderConfig(quote, inst, port) != RenderConfig(quote, b, port);
    var other := b.(id := inst.id);
    IdsDoNotShow(quote, b, inst.id, port);
    rs := [Ensure(other, Attempt(Some(port), true, true)), Reconcile([inst], [Attempt(None, false, false)])];
    Adopted(rs, inst, other, port);
  }

  lemma IdsDoNotShow(quote: string -> string, b: Instance, id: int, port: int)
    ensures Fingerprint(b.(id := id)) == Fingerprint(b)
    ensures RenderConfig(quote, b.(id := id), port) == RenderConfig(quote, b, port)
  {
    assert BindTo(b.(id := id)) == BindTo(b);
    hide BindTo, Join, HeadText, PreferText, FrontingText, RoutingText, StatsText;
  }

  lemma FirstEnsured(other: Instance, port: int)
    ensures var f := Ensured(SweepOrphans(EMPTY), other, Attempt(Some(port), true, true));
            f.swept && f.slots == map[other.id := Slot(1, other, port, other.tag, true)]
  {
    hide Fingerprint;
  }

  /** The second request leaves the process of the first one alone. */
  lemma Adopted(rs: seq<Request>, inst: Instance, other: Instance, port: int)
    requires other.id == inst.id && Fingerprint(inst) == Fingerprint(other)
    requires rs == [Ensure(other, Attempt(Some(port), true, true)), Reconcile([inst], [Attempt(None, false, false)])]
    ensures Requests(rs) && inst.id in Run(rs).slots
    ensures var s := Run(rs).slots[inst.id]; s.running && s.source == other && s.metricsPort == port
  {
    hide Fingerprint;
    assert rs[..1] == [rs[0]] && rs[..1][..0] == [];
    assert Run(rs[..1][..0]) == EMPTY;
    var f := Run(rs[..1]);
    FirstEnsured(other, port);
    assert f == Ensured(SweepOrphans(EMPTY), other, Attempt(Some(port), true, true));
    assert f.swept && inst.id in Ids([inst]) by { assert [inst][0].id == inst.id; }
    var k := Kept(SweepOrphans(f), Ids([inst]));
    assert k.slots[inst.id] == f.slots[inst.id];
    var attempts := [Attempt(None, false, false)];
    assert [inst][..0] == [] && attempts[..0] == [];
    assert EnsuredAll(k, [inst], attempts) == Ensured(k, inst, attempts[0]);
  }
}
