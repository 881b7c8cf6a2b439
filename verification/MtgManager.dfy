/**
The sidecar manager as code (internal/mtproto/manager.go:75-255): a map of entries that are
updated in place, processes that are stopped and started. Each method is proved to do to the
state what the functions of module MtgFleet say; every call holds the manager's lock.
*/
module MtgManager {
  import opened Text
  import opened MtgConfig
  import opened MtgFleet

  /** An OS process: the file it was started with, and whether it still runs. */
  class Process {
    const config: string
    ghost const serial: nat
    var running: bool

    constructor (config: string, ghost serial: nat)
      ensures this.config == config && this.serial == serial && running
    {
      this.config, running := config, true;
      this.serial := serial;
    }

    /** The process ends, or outlives a stop that timed out; the caller ignores which. */
    method Stop()
      modifies this
      ensures running ==> old(running)
    {
      var survives: bool := *;
      running := running && survives;
    }
  }

  /** A managed entry; only the tag is updated in place. `source` remembers what it was started for. */
  class Managed {
    const proc: Process
    const fingerprint: string
    const metricsPort: int
    var tag: string
    ghost const source: Instance

    constructor (proc: Process, tag: string, fingerprint: string, metricsPort: int, ghost source: Instance)
      ensures this.proc == proc && this.tag == tag && this.fingerprint == fingerprint
      ensures this.metricsPort == metricsPort && this.source == source
    {
      this.proc, this.tag, this.fingerprint, this.metricsPort := proc, tag, fingerprint, metricsPort;
      this.source := source;
    }

    ghost function View(): Slot
      reads this, proc
    {
      Slot(proc.serial, source, metricsPort, tag, proc.running)
    }
  }

  /** The slots of the given ids. */
  ghost function Only(slots: map<int, Slot>, ids: set<int>): map<int, Slot> {
    map id | id in slots && id in ids :: slots[id]
  }

  lemma OnlyAll(slots: map<int, Slot>, ids: set<int>)
    requires slots.Keys <= ids
    ensures slots == Only(slots, ids)
  {}

  lemma OnlyWithout(slots: map<int, Slot>, want: set<int>, unwanted: set<int>, id: int)
    requires id !in want
    ensures Only(slots, want + unwanted) - {id} == Only(slots, want + (unwanted - {id}))
  {}

  lemma OnlyIsKept(f: Fleet, want: set<int>, none: set<int>)
    requires none == {}
    ensures Kept(f, want) == f.(slots := Only(f.slots, want + none))
  {}

  lemma EnsuredCases(f: Fleet, inst: Instance, a: Attempt)
    ensures Matches(f, inst) ==> Ensured(f, inst, a) == f.(slots := f.slots[inst.id := f.slots[inst.id].(tag := inst.tag)])
    ensures !Matches(f, inst) ==> Ensured(f, inst, a) == Ensured(f.(slots := f.slots - {inst.id}), inst, a)
    ensures inst.id !in f.slots ==>
              Ensured(f, inst, a) == if !Succeeds(a) then f else
                Fleet(f.slots[inst.id := Slot(|f.actions|, inst, a.port.value, inst.tag, true)], f.swept,
                      f.actions + [Started(inst.id)])
  {
    hide Fingerprint;
    var without := f.slots - {inst.id};
    if inst.id !in f.slots {
      assert without == f.slots;
    }
    if !Matches(f, inst) && Succeeds(a) {
      var slot := Slot(|f.actions|, inst, a.port.value, inst.tag, true);
      assert without[inst.id := slot] == f.slots[inst.id := slot];
    }
  }

  class Manager {
    const quote: string -> string
    var procs: map<int, Managed>
    var swept: bool
    ghost var actions: seq<Action>
    ghost var Repr: set<object>  // entries and processes, past ones included

    /** Entries share no objects; each runs the file rendered for the instance it was started for. */
    ghost predicate Valid()
      reads this
    {
      && this !in Repr
      && (forall i :: i in procs ==> procs[i] in Repr && procs[i].proc in Repr)
      && (forall i, j :: i in procs && j in procs && i != j ==> procs[i] != procs[j] && procs[i].proc != procs[j].proc)
      && (forall i :: i in procs ==>
            && procs[i].fingerprint == Fingerprint(procs[i].source)
            && procs[i].proc.config == RenderConfig(quote, procs[i].source, procs[i].metricsPort))
    }

    ghost function Slots(): map<int, Slot>
      requires Valid()
      reads this, Repr
    {
      map id | id in procs :: procs[id].View()
    }

    ghost function View(): Fleet
      requires Valid()
      reads this, Repr
    {
      Fleet(Slots(), swept, actions)
    }

    constructor (quote: string -> string)
      ensures Valid() && View() == EMPTY && this.quote == quote
    {
      this.quote := quote;
      procs, swept, actions := map[], false, [];
      Repr := {};
    }

    /** `sweepOrphansLocked`. */
    method SweepOrphans()
      requires Valid()
      modifies this`swept, this`actions
      ensures Valid() && swept
      ensures View() == MtgFleet.SweepOrphans(old(View()))
    {
      hide Fingerprint, RenderConfig;
      if swept {
        return;
      }
      swept := true;
      actions := actions + [Sweep];
    }

    /** The branch of `ensureLocked` for a process that already matches. */
    method Retag(id: int, tag: string)
      requires Valid() && id in procs
      modifies procs[id]
      ensures Valid() && Slots() == old(Slots())[id := old(Slots())[id].(tag := tag)]
    {
      hide Fingerprint, RenderConfig;
      procs[id].tag := tag;
      assert forall i :: i in procs && i != id ==> procs[i].View() == old(procs[i].View());
    }

    /** Stopping a process and forgetting its entry. */
    method Forget(id: int)
      requires Valid() && id in procs
      modifies this`procs, procs[id].proc
      ensures Valid() && procs == old(procs) - {id} && Slots() == old(Slots()) - {id}
    {
      hide Fingerprint, RenderConfig;
      procs[id].proc.Stop();
      procs := procs - {id};
      assert forall i :: i in procs ==> procs[i].View() == old(procs[i].View());
    }

    /** `ensureLocked`. */
    method EnsureLocked(inst: Instance, attempt: Attempt) returns (ok: bool)
      requires Valid()
      modifies this`procs, this`actions, this`Repr, Repr
      ensures Valid() && Repr >= old(Repr) && fresh(Repr - old(Repr)) && swept == old(swept)
      ensures View() == Ensured(old(View()), inst, attempt)
      ensures ok <==> inst.id in procs
    {
      hide Fingerprint, RenderConfig, Ensured;
      ghost var f := View();
      EnsuredCases(f, inst, attempt);
      if inst.id in procs {
        var cur := procs[inst.id];
        if cur.fingerprint == Fingerprint(inst) && cur.proc.running {
          Retag(inst.id, inst.tag);
          return true;
        }
        Forget(inst.id);
      }
      assert View() == f.(slots := f.slots - {inst.id});
      EnsuredCases(View(), inst, attempt);
      ok := StartProcess(inst, attempt);
    }

    /** The second half of `ensureLocked`: no entry for the id is left, a process is to be started. */
    method StartProcess(inst: Instance, attempt: Attempt) returns (ok: bool)
      requires Valid() && inst.id !in procs
      modifies this`procs, this`actions, this`Repr
      ensures Valid() && Repr >= old(Repr) && fresh(Repr - old(Repr)) && (ok <==> inst.id in procs)
      ensures View() == Ensured(old(View()), inst, attempt)
    {
      hide Fingerprint, RenderConfig, Ensured;
      EnsuredCases(View(), inst, attempt);
      if attempt.port == None {
        return false;
      }
      var text := RenderConfig(quote, inst, attempt.port.value);
      if !attempt.written || !attempt.started {
        return false;
      }
      ghost var serial := |actions|;
      var proc := new Process(text, serial);
      var entry := new Managed(proc, inst.tag, Fingerprint(inst), attempt.port.value, inst);
      Register(inst.id, entry);
      ok := true;
    }

    /** A started process takes its place in the map. */
    method Register(id: int, entry: Managed)
      requires Valid() && id !in procs && {entry, entry.proc} !! Repr && this !in {entry, entry.proc}
      requires entry.fingerprint == Fingerprint(entry.source)
      requires entry.proc.config == RenderConfig(quote, entry.source, entry.metricsPort)
      modifies this`procs, this`actions, this`Repr
      ensures Valid() && Repr == old(Repr) + {entry, entry.proc} && id in procs
      ensures View() == Fleet(old(Slots())[id := entry.View()], swept, old(actions) + [Started(id)])
    {
      hide Fingerprint, RenderConfig;
      procs := procs[id := entry];
      Repr := Repr + {entry, entry.proc};
      actions := actions + [Started(id)];
    }

    /** `Ensure`. */
    method Ensure(inst: Instance, attempt: Attempt) returns (ok: bool)
      requires Valid()
      modifies this, Repr
      ensures Valid() && View() == Ensured(MtgFleet.SweepOrphans(old(View())), inst, attempt)
      ensures ok <==> inst.id in procs
    {
      SweepOrphans();
      ok := EnsureLocked(inst, attempt);
    }

    /** `Remove`. */
    method Remove(id: int)
      requires Valid()
      modifies this`procs, Repr
      ensures Valid() && View() == old(View()).(slots := old(View()).slots - {id})
    {
      hide Fingerprint, RenderConfig;
      if id in procs {
        Forget(id);
      } else {
        assert Slots() == Slots() - {id};
      }
    }

    /** The first loop of `Reconcile`, in whatever order the map iteration gives. */
    method DropUnwanted(want: set<int>)
      requires Valid()
      modifies this`procs, Repr
      ensures Valid() && View() == Kept(old(View()), want)
    {
      hide Fingerprint, RenderConfig, Only, Managed.View, Kept;
      var unwanted := procs.Keys - want;
      ghost var all := Slots();
      OnlyAll(all, want + unwanted);
      while unwanted != {}
        invariant unwanted == procs.Keys - want
        invariant Valid() && Slots() == Only(all, want + unwanted)
      {
        var id := PickOne(unwanted);
        OnlyWithout(all, want, unwanted, id);
        Forget(id);
        unwanted := unwanted - {id};
      }
      OnlyIsKept(old(View()), want, unwanted);
    }

    /** `Reconcile`; the `i`-th desired instance gets the `i`-th answer of the system if it needs one. */
    method Reconcile(desired: seq<Instance>, attempts: seq<Attempt>)
      requires Valid() && |attempts| == |desired|
      modifies this, Repr
      ensures Valid() && View() == Reconciled(old(View()), desired, attempts)
    {
      hide Fingerprint, RenderConfig, Ensured;
      SweepOrphans();
      DropUnwanted(Ids(desired));
      ghost var kept := View();
      for i := 0 to |desired|
        invariant Valid() && fresh(Repr - old(Repr))
        invariant View() == EnsuredAll(kept, desired[..i], attempts[..i])
      {
        var ok := EnsureLocked(desired[i], attempts[i]);
        assert desired[..i + 1][..i] == desired[..i] && attempts[..i + 1][..i] == attempts[..i];
      }
      assert desired[..|desired|] == desired && attempts[..|desired|] == attempts;
    }

    /** `StopAll`. */
    method StopAll()
      requires Valid()
      modifies this`procs, Repr
      ensures Valid() && View() == old(View()).(slots := map[])
    {
      DropUnwanted({});
      assert Slots() == map[];
    }
  }
}
