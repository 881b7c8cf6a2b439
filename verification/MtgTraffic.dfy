/**
`CollectTraffic` (internal/mtproto/manager.go:257-320) as interleaved steps. The collector
snapshots the managed entries under the lock, scrapes each metrics port without it, and takes
the lock again to store the new baseline; between any two of these steps the manager may stop
and start processes, processes may crash, and they keep counting traffic. A scrape reaches
whichever live process listens on the port, and a freed port may be handed out again.
*/
module MtgTraffic {
  import opened Text

  /** Bytes towards Telegram and towards the client. */
  datatype Count = Count(up: nat, down: nat)

  /**
  One process generation: the inbound it serves, its metrics port and counters. The last five fields
  are bookkeeping of this model: the deltas reported for it, the first and the last scrape written
  back for it, and whether its start was a disturbed or even a harmful one.
  */
  datatype Proc = Proc(id: int, port: int, counter: Count, alive: bool, reported: Count,
                       first: Option<Count>, last: Option<Count>, tainted: bool, harmed: bool)

  /** A managed entry; `last` is None until `haveLast` is set. */
  datatype Entry = Entry(gen: nat, last: Option<Count>)

  /** What one snapshot row keeps; the generation is not in the code, only its port is. */
  datatype Snap = Snap(id: int, port: int, last: Option<Count>, gen: nat)

  /** A row whose scrape answered and whose write-back is still to come. */
  datatype Flight = Flight(snap: Snap, scraped: Count, hit: nat)

  datatype State = State(
    procs: seq<Proc>,              // every generation ever started
    entries: map<int, Entry>,      // Manager.procs
    pending: seq<Snap>,            // rows not scraped yet
    flight: Option<Flight>)

  const INIT := State([], map[], [], None)

  /** Rows the collector still holds. */
  function Outstanding(s: State): seq<Snap> {
    (if s.flight.Some? then [s.flight.value.snap] else []) + s.pending
  }

  // ---------------------------------------------------------------- steps

  datatype Event =
    | Start(id: int, port: int)        // the manager starts a process for an id it does not manage
    | Forget(id: int, stopped: bool)   // it drops an entry; the process stops, or survives a timed-out stop
    | Exit(gen: nat)                   // a process ends by itself
    | Serve(gen: nat, more: Count)     // a live process carries traffic
    | Snapshot(rows: seq<Snap>)        // the collector copies the live entries under the lock
    | Scrape(hit: Option<nat>)         // it scrapes the first row's port; None is a failed scrape
    | WriteBack                        // it stores the new baseline and reports the delta

  predicate PortFree(s: State, port: int) { forall g :: 0 <= g < |s.procs| && s.procs[g].alive ==> s.procs[g].port != port }

  predicate IdOutstanding(s: State, id: int) { exists i :: 0 <= i < |Outstanding(s)| && Outstanding(s)[i].id == id }

  /** The row of a process that is restarted on its own port, not reported yet. */
  predicate OwnRow(r: Snap, id: int, port: int) { r.id == id && r.port == port && r.last == None }

  /** A process is started while a row of its inbound or on its port is outstanding, unless it is its own new row. */
  predicate Disturbed(s: State, id: int, port: int) {
    || (s.flight.Some? && s.flight.value.snap.id == id)
    || exists i :: 0 <= i < |s.pending| && (s.pending[i].id == id || s.pending[i].port == port)
                   && !OwnRow(s.pending[i], id, port)
  }

  /**
  A process is started on the port of a row that has a baseline and belongs to another inbound, while
  a row of its own inbound is outstanding: one row will be answered by it, the other overwrites its baseline.
  */
  predicate Harmful(s: State, id: int, port: int) {
    IdOutstanding(s, id)
    && exists i :: 0 <= i < |s.pending| && s.pending[i].port == port && s.pending[i].id != id && s.pending[i].last.Some?
  }

  predicate Live(s: State, g: nat) { g < |s.procs| && s.procs[g].alive }

  /** The rows are the live managed entries, in the order the map iteration happens to give. */
  predicate IsSnapshot(s: State, rows: seq<Snap>) {
    && (forall i :: 0 <= i < |rows| ==>
          && rows[i].id in s.entries
          && var e := s.entries[rows[i].id];
             Live(s, e.gen) && rows[i] == Snap(rows[i].id, s.procs[e.gen].port, e.last, e.gen))
    && (forall i, j :: 0 <= i < j < |rows| ==> rows[i].id != rows[j].id)
    && (forall id :: id in s.entries && Live(s, s.entries[id].gen) ==> exists i :: 0 <= i < |rows| && rows[i].id == id)
  }

  predicate Enabled(s: State, e: Event) {
    match e
    case Start(id, port) => id !in s.entries && PortFree(s, port)
    case Forget(id, _) => id in s.entries && s.entries[id].gen < |s.procs|
    case Exit(g) => g < |s.procs|
    case Serve(g, _) => Live(s, g)
    case Snapshot(rows) => s.pending == [] && s.flight == None && IsSnapshot(s, rows)
    case Scrape(hit) =>
      s.pending != [] && s.flight == None
      && (hit.Some? ==> Live(s, hit.value) && s.procs[hit.value].port == s.pending[0].port)
    case WriteBack => s.flight.Some? && s.flight.value.hit < |s.procs|
  }

  function Kill(s: State, g: nat): State
    requires g < |s.procs|
  {
    s.(procs := s.procs[g := s.procs[g].(alive := false)])
  }

  /** A negative difference is reported as 0. */
  function Delta(now: nat, last: nat): nat { if now >= last then now - last else 0 }

  function DeltaOf(f: Flight): Count {
    Count(if f.snap.last.None? then 0 else Delta(f.scraped.up, f.snap.last.value.up),
          if f.snap.last.None? then 0 else Delta(f.scraped.down, f.snap.last.value.down))
  }

  function Plus(a: Count, b: Count): Count { Count(a.up + b.up, a.down + b.down) }

  function After(s: State, e: Event): State
    requires Enabled(s, e)
  {
    match e
    case Start(id, port) =>
      s.(procs := s.procs + [Proc(id, port, Count(0, 0), true, Count(0, 0), None, None,
                                  Disturbed(s, id, port), Harmful(s, id, port))],
         entries := s.entries[id := Entry(|s.procs|, None)])
    case Forget(id, stopped) =>
      var s' := s.(entries := s.entries - {id});
      if stopped then Kill(s', s.entries[id].gen) else s'
    case Exit(g) => Kill(s, g)
    case Serve(g, more) => s.(procs := s.procs[g := s.procs[g].(counter := Plus(s.procs[g].counter, more))])
    case Snapshot(rows) => s.(pending := rows)
    case Scrape(hit) =>
      s.(pending := s.pending[1..],
         flight := if hit == None then None else Some(Flight(s.pending[0], s.procs[hit.value].counter, hit.value)))
    case WriteBack =>
      // the baseline goes to whatever entry the id has by now
      var f := s.flight.value;
      s.(flight := None,
         entries := if f.snap.id in s.entries
                    then s.entries[f.snap.id := s.entries[f.snap.id].(last := Some(f.scraped))] else s.entries,
         procs := s.procs[f.hit := Credit(s.procs[f.hit], f)])
  }

  function Credit(p: Proc, f: Flight): Proc {
    p.(reported := Plus(p.reported, DeltaOf(f)), first := if p.first.None? then Some(f.scraped) else p.first,
       last := Some(f.scraped))
  }

  /** The state a sequence of events leads to; None when one of them is not possible in its turn. */
  function Exec(s: State, events: seq<Event>): Option<State>
    decreases |events|
  {
    if events == [] then Some(s)
    else if Enabled(s, events[0]) then Exec(After(s, events[0]), events[1..])
    else None
  }

  // ---------------------------------------------------------------- the shape of every reachable state

  predicate RowFits(s: State, r: Snap) { r.gen < |s.procs| && s.procs[r.gen].id == r.id && s.procs[r.gen].port == r.port }

  predicate RowsFit(s: State, rows: seq<Snap>) {
    && (forall i :: 0 <= i < |rows| ==> RowFits(s, rows[i]))
    && (forall i, j :: 0 <= i < j < |rows| ==> rows[i].id != rows[j].id && rows[i].port != rows[j].port)
  }

  predicate EntriesMatch(s: State) {
    && (forall id :: id in s.entries ==> s.entries[id].gen < |s.procs| && s.procs[s.entries[id].gen].id == id)
    && (forall g, h :: 0 <= g < h < |s.procs| && s.procs[g].alive && s.procs[h].alive ==> s.procs[g].port != s.procs[h].port)
  }

  predicate Shape(s: State) {
    EntriesMatch(s) && RowsFit(s, Outstanding(s)) && (s.flight.Some? ==> s.flight.value.hit < |s.procs|)
  }

  lemma SnapshotShape(s: State, rows: seq<Snap>)
    requires Shape(s) && Enabled(s, Snapshot(rows))
    ensures RowsFit(s, rows)
  {
    forall i, j | 0 <= i < j < |rows| ensures rows[i].id != rows[j].id && rows[i].port != rows[j].port {
      LivePorts(s, rows[i].gen, rows[j].gen);
    }
    hide EntriesMatch;
  }

  lemma LivePorts(s: State, g: nat, h: nat)
    requires EntriesMatch(s) && Live(s, g) && Live(s, h) && g != h
    ensures s.procs[g].port != s.procs[h].port
  {
  }

  lemma StepKeepsShape(s: State, e: Event)
    requires Shape(s) && Enabled(s, e)
    ensures Shape(After(s, e))
  {
    StepKeepsEntries(s, e);
    var s' := After(s, e);
    match e
    case Snapshot(rows) =>
      SnapshotShape(s, rows);
      assert Outstanding(s') == rows;
    case Scrape(_) => ScrapeShape(s, e);
    case WriteBack => WriteBackShape(s);
    case _ => SameRows(s, s');
  }

  lemma StepKeepsEntries(s: State, e: Event)
    requires Shape(s) && Enabled(s, e)
    ensures EntriesMatch(After(s, e))
  {
    hide RowsFit, IsSnapshot, Plus, DeltaOf, Disturbed, Harmful, PortFree;
    if e.Start? {
      PortIsNew(s, e.port);
    }
  }

  lemma PortIsNew(s: State, port: int)
    requires PortFree(s, port)
    ensures forall g :: 0 <= g < |s.procs| && s.procs[g].alive ==> s.procs[g].port != port
  {
  }

  lemma ScrapeShape(s: State, e: Event)
    requires Shape(s) && e.Scrape? && Enabled(s, e)
    ensures RowsFit(After(s, e), Outstanding(After(s, e)))
  {
    hide EntriesMatch, RowsFit;
    var s', rows := After(s, e), s.pending;
    assert Outstanding(s) == rows == [rows[0]] + rows[1..];
    assert Outstanding(s') == if e.hit == None then rows[1..] else rows;
    LaterRows(s, rows[0], rows[1..]);
    SameFit(s, s', if e.hit == None then rows[1..] else rows);
  }

  lemma SameFit(s: State, s': State, rows: seq<Snap>)
    requires RowsFit(s, rows) && |s'.procs| >= |s.procs|
    requires forall g :: 0 <= g < |s.procs| ==> s'.procs[g].id == s.procs[g].id && s'.procs[g].port == s.procs[g].port
    ensures RowsFit(s', rows)
  {
    forall i | 0 <= i < |rows| ensures RowFits(s', rows[i]) {
      assert RowFits(s, rows[i]);
    }
  }

  lemma WriteBackShape(s: State)
    requires Shape(s) && s.flight.Some?
    ensures RowsFit(After(s, WriteBack), Outstanding(After(s, WriteBack)))
  {
    hide EntriesMatch, RowsFit, Plus, DeltaOf;
    var s' := After(s, WriteBack);
    assert Outstanding(s) == [s.flight.value.snap] + s.pending && Outstanding(s') == s.pending;
    LaterRows(s, s.flight.value.snap, s.pending);
    SameFit(s, s', s.pending);
  }

  lemma SameRows(s: State, s': State)
    requires RowsFit(s, Outstanding(s)) && s'.pending == s.pending && s'.flight == s.flight && |s'.procs| >= |s.procs|
    requires forall g :: 0 <= g < |s.procs| ==> s'.procs[g].id == s.procs[g].id && s'.procs[g].port == s.procs[g].port
    ensures RowsFit(s', Outstanding(s'))
  {
    hide RowsFit;
    assert Outstanding(s') == Outstanding(s);
    SameFit(s, s', Outstanding(s));
  }

  lemma LaterRows(s: State, row: Snap, rows: seq<Snap>)
    requires RowsFit(s, [row] + rows)
    ensures RowsFit(s, rows) && forall i :: 0 <= i < |rows| ==> rows[i].id != row.id && rows[i].port != row.port
  {
    var all := [row] + rows;
    assert all[0] == row && forall i :: 0 <= i < |rows| ==> all[i + 1] == rows[i];
  }

  // ---------------------------------------------------------------- the invariant

  predicate Within(a: Count, b: Count) { a.up <= b.up && a.down <= b.down }

  predicate SumsTo(a: Count, b: Count, sum: Count) { a.up + b.up == sum.up && a.down + b.down == sum.down }

  predicate IsZero(a: Count) { a.up == 0 && a.down == 0 }

  predicate IsEntryOf(s: State, id: int, g: nat) { id in s.entries && s.entries[id].gen == g }

  /** What a row the collector still holds may assume of the process it was taken from, and of its id. */
  predicate RowSound(s: State, r: Snap)
    requires r.gen < |s.procs|
  {
    var p := s.procs[r.gen];
    && (r.last.Some? && !p.harmed ==> Within(p.reported, r.last.value))
    && (!p.tainted ==> r.last == p.last)
    && (r.id in s.entries ==>
          if s.entries[r.id].gen == r.gen then s.entries[r.id].last == r.last
          else s.entries[r.id].gen < |s.procs| && Latecomer(s.procs[s.entries[r.id].gen], r))
  }

  /** Started during the collection, and nothing reported for it yet unless it was harmed. */
  predicate Newcomer(p: Proc) { (p.harmed ==> p.tainted) && (p.harmed || IsZero(p.reported)) }

  /** A newcomer for the inbound of a row; undisturbed, it waits on the port of the row. */
  predicate Latecomer(p: Proc, r: Snap) {
    Newcomer(p) && (!p.tainted ==> p.port == r.port && r.last == None && p.last == None)
  }

  /** A row is answered by its own process, by a harmed one, or by a newcomer for which that is harmless. */
  predicate AnswerSound(s: State, r: Snap, g: nat)
    requires g < |s.procs|
  {
    g == r.gen ||
    (var p := s.procs[g];
     && Newcomer(p)
     && (!p.tainted ==> p.id == r.id && r.last == None && p.last == None)
     && (p.harmed || (
           && (r.last.Some? ==> p.id == r.id || !IdOutstanding(s, p.id))
           && (r.last.Some? && p.id != r.id && IsEntryOf(s, p.id, g) ==> s.entries[p.id].last == None))))
  }

  predicate RowsSound(s: State)
    requires Shape(s)
  {
    forall i :: 0 <= i < |Outstanding(s)| ==> RowFits(s, Outstanding(s)[i]) && RowSound(s, Outstanding(s)[i])
  }

  predicate PortsSound(s: State) {
    forall i, g :: 0 <= i < |s.pending| && 0 <= g < |s.procs| && s.procs[g].alive && s.procs[g].port == s.pending[i].port
      ==> AnswerSound(s, s.pending[i], g)
  }

  predicate FlightSound(s: State)
    requires Shape(s)
  {
    s.flight.Some? ==>
      var f := s.flight.value;
      var p := s.procs[f.hit];
      && AnswerSound(s, f.snap, f.hit) && p.port == f.snap.port
      && (!p.harmed ==> Within(p.reported, f.scraped)) && Within(f.scraped, p.counter)
      && (!p.tainted && f.snap.last.Some? ==> Within(f.snap.last.value, f.scraped))
      && (f.hit != f.snap.gen && f.snap.gen < |s.procs| ==> !s.procs[f.snap.gen].alive)
      && (f.snap.id in s.entries ==> Passed(s.procs[s.entries[f.snap.id].gen], f.hit == s.entries[f.snap.id].gen))
  }

  /** Another process than the answering one that gets the baseline is dead or was disturbed. */
  predicate Passed(p: Proc, answering: bool) { !answering && p.alive ==> p.tainted }

  /** The reports of a process stay within its counter unless it was harmed; undisturbed, they are last scrape less first. */
  predicate ProcSound(p: Proc) {
    && (!p.harmed ==> Within(p.reported, p.counter))
    && (!p.tainted ==> Telescopes(p))
    && (p.harmed ==> p.tainted)
  }

  predicate Telescopes(p: Proc) {
    if p.last.None? then p.first.None? && IsZero(p.reported)
    else p.first.Some? && SumsTo(p.first.value, p.reported, p.last.value) && Within(p.last.value, p.counter)
  }

  /** The baseline of a live process is never below what was reported for it. */
  predicate EntrySound(p: Proc, last: Option<Count>) {
    p.alive ==> (last.Some? && !p.harmed ==> Within(p.reported, last.value)) && (!p.tainted ==> last == p.last)
  }

  predicate Accounted(s: State)
    requires Shape(s)
  {
    && (forall g :: 0 <= g < |s.procs| ==> ProcSound(s.procs[g]))
    && (forall id :: id in s.entries ==> EntrySound(s.procs[s.entries[id].gen], s.entries[id].last))
  }

  predicate Invariant(s: State) {
    Shape(s) && RowsSound(s) && PortsSound(s) && FlightSound(s) && Accounted(s)
  }

  // ---------------------------------------------------------------- every step keeps it

  /** A process is added, changed without its reports, or dies; entries are dropped or start without baseline. */
  predicate Quiet(s: State, s': State) {
    && s'.pending == s.pending && s'.flight == s.flight && |s'.procs| >= |s.procs|
    && (forall g :: 0 <= g < |s.procs| ==> Calmer(s.procs[g], s'.procs[g]))
    && (forall id :: id in s'.entries && s'.entries[id].gen < |s.procs| ==> id in s.entries && s'.entries[id] == s.entries[id])
  }

  predicate Calmer(p: Proc, q: Proc) {
    && q.id == p.id && q.port == p.port && q.reported == p.reported && q.first == p.first && q.last == p.last
    && q.tainted == p.tainted && q.harmed == p.harmed && (q.alive ==> p.alive) && Within(p.counter, q.counter)
  }

  lemma QuietKeepsRow(s: State, s': State, r: Snap)
    requires Quiet(s, s') && r.gen < |s.procs| && RowSound(s, r)
    requires r.id in s'.entries && s'.entries[r.id].gen >= |s.procs| ==>
               s'.entries[r.id].gen < |s'.procs| && Latecomer(s'.procs[s'.entries[r.id].gen], r)
    ensures RowSound(s', r)
  {
    hide Within, SumsTo;
  }

  lemma QuietKeepsAnswer(s: State, s': State, r: Snap, g: nat)
    requires Quiet(s, s') && g < |s.procs| && AnswerSound(s, r, g)
    ensures AnswerSound(s', r, g)
  {
    assert Outstanding(s') == Outstanding(s);
  }

  lemma QuietKeepsPorts(s: State, s': State)
    requires Quiet(s, s') && |s'.procs| == |s.procs| && PortsSound(s)
    ensures PortsSound(s')
  {
    hide AnswerSound;
    forall i, g | 0 <= i < |s'.pending| && 0 <= g < |s'.procs| && s'.procs[g].alive && s'.procs[g].port == s'.pending[i].port
      ensures AnswerSound(s', s'.pending[i], g)
    {
      assert Calmer(s.procs[g], s'.procs[g]);
      QuietKeepsAnswer(s, s', s.pending[i], g);
    }
  }

  lemma QuietKeepsProc(p: Proc, q: Proc)
    requires Calmer(p, q) && ProcSound(p)
    ensures ProcSound(q)
  {
  }

  lemma QuietKeepsFlight(s: State, s': State)
    requires Quiet(s, s') && Shape(s) && Shape(s') && FlightSound(s)
    requires s.flight.Some? ==>
               var id := s.flight.value.snap.id;
               id in s'.entries && s'.entries[id].gen >= |s.procs| ==> s'.procs[s'.entries[id].gen].tainted
    ensures FlightSound(s')
  {
    if s.flight.Some? {
      QuietKeepsAnswer(s, s', s.flight.value.snap, s.flight.value.hit);
      assert Outstanding(s)[0] == s.flight.value.snap;
      assert RowFits(s, Outstanding(s)[0]);
      hide AnswerSound, RowsFit, EntriesMatch;
    }
  }

  lemma QuietKeepsAccounts(s: State, s': State)
    requires Quiet(s, s') && Shape(s) && Shape(s') && Accounted(s)
    requires forall g :: |s.procs| <= g < |s'.procs| ==> ProcSound(s'.procs[g])
    requires forall id :: id in s'.entries && s'.entries[id].gen >= |s.procs| ==>
               EntrySound(s'.procs[s'.entries[id].gen], s'.entries[id].last)
    ensures Accounted(s')
  {
    hide ProcSound, RowsFit;
    forall g | 0 <= g < |s.procs| ensures ProcSound(s'.procs[g]) {
      QuietKeepsProc(s.procs[g], s'.procs[g]);
    }
  }

  lemma QuietStep(s: State, e: Event)
    requires Shape(s) && Enabled(s, e) && (e.Forget? || e.Exit? || e.Serve?)
    ensures Quiet(s, After(s, e)) && Outstanding(After(s, e)) == Outstanding(s) && |After(s, e).procs| == |s.procs|
    ensures forall id :: id in After(s, e).entries ==> After(s, e).entries[id].gen < |s.procs|
  {
    hide RowsFit;
  }

  /** Stops, exits and traffic: nothing is added. */
  lemma QuietStepKeeps(s: State, e: Event)
    requires Invariant(s) && Enabled(s, e) && (e.Forget? || e.Exit? || e.Serve?)
    ensures Invariant(After(s, e))
  {
    hide After, Quiet, EntriesMatch, PortsSound, AnswerSound;
    var s' := After(s, e);
    StepKeepsShape(s, e);
    QuietStep(s, e);
    forall i | 0 <= i < |Outstanding(s')| ensures RowFits(s', Outstanding(s')[i]) && RowSound(s', Outstanding(s')[i]) {
      assert RowFits(s, Outstanding(s)[i]);
      QuietKeepsRow(s, s', Outstanding(s)[i]);
    }
    QuietKeepsPorts(s, s');
    QuietKeepsFlight(s, s');
    QuietKeepsAccounts(s, s');
  }

  lemma StartIsQuiet(s: State, e: Event)
    requires Shape(s) && e.Start? && Enabled(s, e)
    ensures var s', g := After(s, e), |s.procs|;
            && Quiet(s, s') && |s'.procs| == g + 1 && s'.entries[e.id] == Entry(g, None)
            && (forall id :: id in s'.entries && s'.entries[id].gen >= g ==> id == e.id)
            && var p := s'.procs[g];
               && p.id == e.id && p.port == e.port && IsZero(p.reported) && p.first == None && p.last == None
               && IsZero(p.counter) && p.tainted == Disturbed(s, e.id, e.port) && p.harmed == Harmful(s, e.id, e.port)
  {
    hide RowsFit, Disturbed, Harmful;
  }

  lemma StartKeeps(s: State, e: Event)
    requires Invariant(s) && e.Start? && Enabled(s, e)
    ensures Invariant(After(s, e))
  {
    var s', n := After(s, e), |s.procs|;
    StepKeepsShape(s, e);
    StartIsQuiet(s, e);
    assert Outstanding(s') == Outstanding(s);
    StartKeepsRows(s, e);
    StartKeepsPorts(s, e);
    QuietKeepsFlight(s, s');
    hide RowsSound, PortsSound, FlightSound, Quiet, EntriesMatch, RowsFit;
    QuietKeepsAccounts(s, s');
  }

  lemma StartKeepsRows(s: State, e: Event)
    requires Invariant(s) && e.Start? && Enabled(s, e) && Shape(After(s, e))
    ensures RowsSound(After(s, e))
  {
    var s' := After(s, e);
    StartIsQuiet(s, e);
    hide Quiet, EntriesMatch, RowsFit, PortsSound, FlightSound, Accounted;
    assert Outstanding(s') == Outstanding(s);
    forall i | 0 <= i < |Outstanding(s')| ensures RowFits(s', Outstanding(s')[i]) && RowSound(s', Outstanding(s')[i]) {
      var r := Outstanding(s)[i];
      assert RowFits(s, r) && RowSound(s, r);
      assert RowsFit(s', Outstanding(s'));
      SameRow(s', i);
      QuietKeepsRow(s, s', r);
    }
  }

  lemma SameRow(s: State, i: nat)
    requires Shape(s) && i < |Outstanding(s)|
    ensures RowFits(s, Outstanding(s)[i])
  {
  }

  lemma StartKeepsPorts(s: State, e: Event)
    requires Invariant(s) && e.Start? && Enabled(s, e)
    ensures PortsSound(After(s, e))
  {
    var s', n := After(s, e), |s.procs|;
    StartIsQuiet(s, e);
    assert Outstanding(s') == Outstanding(s);
    hide RowsSound, FlightSound, Accounted, RowsFit, EntriesMatch;
    forall i, g | 0 <= i < |s'.pending| && 0 <= g < |s'.procs| && s'.procs[g].alive && s'.procs[g].port == s'.pending[i].port
      ensures AnswerSound(s', s'.pending[i], g)
    {
      if g < n {
        QuietKeepsAnswer(s, s', s.pending[i], g);
      }
    }
  }

  lemma SnapshotKeeps(s: State, rows: seq<Snap>)
    requires Invariant(s) && Enabled(s, Snapshot(rows))
    ensures Invariant(After(s, Snapshot(rows)))
  {
    StepKeepsShape(s, Snapshot(rows));
    SnapshotKeepsRows(s, rows);
    SnapshotKeepsPorts(s, rows);
    hide RowsSound, PortsSound, RowsFit, EntriesMatch, IsSnapshot, ProcSound, EntrySound;
  }

  lemma SnapshotKeepsRows(s: State, rows: seq<Snap>)
    requires Invariant(s) && Enabled(s, Snapshot(rows)) && Shape(After(s, Snapshot(rows)))
    ensures RowsSound(After(s, Snapshot(rows)))
  {
    var s' := After(s, Snapshot(rows));
    assert Outstanding(s') == rows;
    hide RowsFit, EntriesMatch, ProcSound, Within, PortsSound, RowsSound;
    forall i | 0 <= i < |rows| ensures RowFits(s', rows[i]) && RowSound(s', rows[i]) {
      SameRow(s', i);
      assert EntrySound(s.procs[rows[i].gen], rows[i].last);
    }
    AllRows(s', rows);
  }

  lemma AllRows(s: State, rows: seq<Snap>)
    requires Shape(s) && Outstanding(s) == rows
    requires forall i :: 0 <= i < |rows| ==> RowFits(s, rows[i]) && RowSound(s, rows[i])
    ensures RowsSound(s)
  {
    hide RowSound;
  }

  lemma SnapshotKeepsPorts(s: State, rows: seq<Snap>)
    requires Invariant(s) && Enabled(s, Snapshot(rows))
    ensures PortsSound(After(s, Snapshot(rows)))
  {
    hide RowsFit, RowsSound, Accounted, PortsSound;
    var s' := After(s, Snapshot(rows));
    forall i, g | 0 <= i < |rows| && 0 <= g < |s.procs| && s.procs[g].alive && s.procs[g].port == rows[i].port
      ensures g == rows[i].gen
    {
      assert Live(s, rows[i].gen) && s.procs[rows[i].gen].port == rows[i].port;
    }
    OwnPorts(s');
  }

  lemma OwnPorts(s: State)
    requires forall i, g :: 0 <= i < |s.pending| && 0 <= g < |s.procs| && s.procs[g].alive && s.procs[g].port == s.pending[i].port
               ==> g == s.pending[i].gen
    ensures PortsSound(s)
  {
  }

  lemma MissKeeps(s: State)
    requires Invariant(s) && Enabled(s, Scrape(None))
    ensures Invariant(After(s, Scrape(None)))
  {
    var s' := After(s, Scrape(None));
    StepKeepsShape(s, Scrape(None));
    assert Outstanding(s) == s.pending && Outstanding(s') == s.pending[1..];
    MissKeepsPorts(s);
    hide RowsFit, RowsSound, EntriesMatch, EntrySound, ProcSound, PortsSound, RowSound;
    forall i | 0 <= i < |Outstanding(s')| ensures RowFits(s', Outstanding(s')[i]) && RowSound(s', Outstanding(s')[i]) {
      SameRow(s', i);
      RowOf(s, i + 1);
      SameTables(s, s', s.pending[i + 1]);
    }
    AllRows(s', s.pending[1..]);
  }

  lemma RowOf(s: State, i: nat)
    requires Shape(s) && RowsSound(s) && i < |Outstanding(s)|
    ensures RowFits(s, Outstanding(s)[i]) && RowSound(s, Outstanding(s)[i])
  {
    hide RowSound, RowsFit;
  }

  lemma SameTables(s: State, s': State, r: Snap)
    requires s'.procs == s.procs && s'.entries == s.entries && r.gen < |s.procs|
    ensures RowSound(s', r) <==> RowSound(s, r)
  {
  }

  lemma MissKeepsPorts(s: State)
    requires PortsSound(s) && Enabled(s, Scrape(None))
    ensures PortsSound(After(s, Scrape(None)))
  {
    var s' := After(s, Scrape(None));
    assert Outstanding(s) == s.pending && Outstanding(s') == s.pending[1..];
    forall i, g | 0 <= i < |s'.pending| && 0 <= g < |s'.procs| && s'.procs[g].alive && s'.procs[g].port == s'.pending[i].port
      ensures AnswerSound(s', s'.pending[i], g)
    {
      assert AnswerSound(s, s.pending[i + 1], g);
      FewerRows(s, s');
    }
  }

  lemma FewerRows(s: State, s': State)
    requires Outstanding(s) != [] && Outstanding(s') == Outstanding(s)[1..]
    ensures forall id :: IdOutstanding(s', id) ==> IdOutstanding(s, id)
  {
    forall id | IdOutstanding(s', id) ensures IdOutstanding(s, id) {
      var i :| 0 <= i < |Outstanding(s')| && Outstanding(s')[i].id == id;
      assert Outstanding(s)[i + 1].id == id;
    }
  }

  lemma HitKeeps(s: State, g: nat)
    requires Invariant(s) && Enabled(s, Scrape(Some(g)))
    ensures Invariant(After(s, Scrape(Some(g))))
  {
    var s', row := After(s, Scrape(Some(g))), s.pending[0];
    StepKeepsShape(s, Scrape(Some(g)));
    assert Outstanding(s) == s.pending && Outstanding(s') == [row] + s.pending[1..] == s.pending;
    HitKeepsPorts(s, g);
    HitIsSound(s, g);
    hide RowsFit, EntriesMatch, EntrySound, PortsSound, FlightSound, RowsSound, RowSound;
    forall i | 0 <= i < |s.pending| ensures RowFits(s', s.pending[i]) && RowSound(s', s.pending[i]) {
      SameRow(s', i);
      RowOf(s, i);
      SameTables(s, s', s.pending[i]);
    }
    AllRows(s', s.pending);
  }

  lemma HitKeepsPorts(s: State, g: nat)
    requires PortsSound(s) && Enabled(s, Scrape(Some(g)))
    ensures PortsSound(After(s, Scrape(Some(g))))
  {
    var s' := After(s, Scrape(Some(g)));
    assert Outstanding(s) == s.pending && Outstanding(s') == [s.pending[0]] + s.pending[1..] == s.pending;
    forall i, h | 0 <= i < |s'.pending| && 0 <= h < |s'.procs| && s'.procs[h].alive && s'.procs[h].port == s'.pending[i].port
      ensures AnswerSound(s', s'.pending[i], h)
    {
      assert AnswerSound(s, s.pending[i + 1], h);
    }
  }

  lemma HitIsSound(s: State, g: nat)
    requires Invariant(s) && Enabled(s, Scrape(Some(g))) && Shape(After(s, Scrape(Some(g))))
    ensures FlightSound(After(s, Scrape(Some(g))))
  {
    var s', row := After(s, Scrape(Some(g))), s.pending[0];
    assert Outstanding(s) == s.pending && Outstanding(s') == [row] + s.pending[1..] == s.pending;
    assert AnswerSound(s, row, g) && ProcSound(s.procs[g]);
    RowOf(s, 0);
    OnePerPort(s, g, row.gen);
    if row.id in s.entries {
      PassedBy(s, row, g);
    }
    SameAnswer(s, s', row, g);
    hide RowsFit, EntriesMatch, RowsSound, PortsSound, Accounted, Shape, AnswerSound, Passed, PortFree;
  }

  /** Who listens on the port of a row passes everybody else who may get its baseline. */
  lemma PassedBy(s: State, row: Snap, g: nat)
    requires Shape(s) && RowFits(s, row) && RowSound(s, row) && row.id in s.entries
    requires Live(s, g) && s.procs[g].port == row.port
    ensures Passed(s.procs[s.entries[row.id].gen], g == s.entries[row.id].gen)
  {
    var h := s.entries[row.id].gen;
    if s.procs[h].port == row.port {
      OnePerPort(s, g, h);
    }
    hide EntriesMatch, RowsFit;
  }

  lemma SameAnswer(s: State, s': State, r: Snap, g: nat)
    requires g < |s.procs| && AnswerSound(s, r, g)
    requires s'.procs == s.procs && s'.entries == s.entries && Outstanding(s') == Outstanding(s)
    ensures AnswerSound(s', r, g)
  {
  }

  lemma OnePerPort(s: State, g: nat, h: nat)
    requires EntriesMatch(s) && g < |s.procs| && h < |s.procs| && s.procs[g].alive && s.procs[g].port == s.procs[h].port
    ensures g != h ==> !s.procs[h].alive
  {
  }

  // ---------------------------------------------------------------- the write-back

  lemma CreditKeepsRest(p: Proc, f: Flight)
    ensures var q := Credit(p, f);
            && q.id == p.id && q.port == p.port && q.alive == p.alive && q.counter == p.counter && q.tainted == p.tainted
            && q.harmed == p.harmed
            && q.last == Some(f.scraped)
            && (f.snap.last.None? ==> q.reported == p.reported)
  {
  }

  /** Crediting a delta never lifts the reports above what was scraped. */
  lemma CreditFits(p: Proc, f: Flight)
    requires Within(p.reported, f.scraped) && (f.snap.last.Some? ==> Within(p.reported, f.snap.last.value))
    ensures Within(Credit(p, f).reported, f.scraped)
  {
    var d, q := DeltaOf(f), Credit(p, f);
    assert q.reported.up == p.reported.up + d.up && q.reported.down == p.reported.down + d.down;
  }

  lemma CreditParts(p: Proc, f: Flight)
    ensures var q, d := Credit(p, f), DeltaOf(f);
            && q.reported.up == p.reported.up + d.up && q.reported.down == p.reported.down + d.down
            && q.first == (if p.first.None? then Some(f.scraped) else p.first)
    ensures f.snap.last.None? ==> IsZero(DeltaOf(f))
    ensures f.snap.last.Some? && Within(f.snap.last.value, f.scraped) ==>
              SumsTo(f.snap.last.value, DeltaOf(f), f.scraped)
  {
  }

  /** Undisturbed, reports stay last scrape less first. */
  lemma CreditTelescopes(p: Proc, f: Flight)
    requires Telescopes(p) && f.snap.last == p.last && Within(f.scraped, p.counter)
    requires p.last.Some? ==> Within(p.last.value, f.scraped)
    ensures Telescopes(Credit(p, f))
  {
    CreditParts(p, f);
    CreditKeepsRest(p, f);
    hide Credit, DeltaOf;
  }

  /** What the collector knows when it stores a baseline: facts about the answering process and the row. */
  lemma FlightFacts(s: State)
    requires Invariant(s) && s.flight.Some?
    ensures var f := s.flight.value; var p := s.procs[f.hit];
            && RowFits(s, f.snap) && RowSound(s, f.snap) && ProcSound(p) && Within(f.scraped, p.counter)
            && (!p.harmed ==> Within(p.reported, f.scraped))
            && (!p.harmed && f.snap.last.Some? ==> Within(p.reported, f.snap.last.value))
            && (!p.tainted ==> f.snap.last == p.last && p.id == f.snap.id)
            && (!p.tainted && p.last.Some? ==> Within(p.last.value, f.scraped))
            && (f.hit == f.snap.gen ==> p.id == f.snap.id)
            && (f.hit != f.snap.gen ==> Newcomer(p) && !s.procs[f.snap.gen].alive)
            && (f.snap.last.Some? && p.id != f.snap.id && !p.harmed ==> !IdOutstanding(s, p.id))
            && (f.snap.last.Some? && p.id != f.snap.id && !p.harmed && IsEntryOf(s, p.id, f.hit) ==> s.entries[p.id].last == None)
            && (f.snap.id in s.entries ==> Passed(s.procs[s.entries[f.snap.id].gen], f.hit == s.entries[f.snap.id].gen))
  {
    hide RowsFit, EntriesMatch, PortsSound, EntrySound, RowsSound;
    assert Outstanding(s)[0] == s.flight.value.snap;
    RowOf(s, 0);
  }

  /** The process credited, and what a write-back leaves of it. */
  predicate Credited(f: Flight, p: Proc, q: Proc) {
    && q.id == p.id && q.port == p.port && q.alive == p.alive && q.counter == p.counter && q.tainted == p.tainted
    && q.harmed == p.harmed && q.last == Some(f.scraped) && (!q.harmed ==> Within(q.reported, f.scraped)) && ProcSound(q)
    && (f.snap.last.None? ==> q.reported == p.reported)
  }

  lemma CreditIsSound(s: State)
    requires Invariant(s) && s.flight.Some?
    ensures var f := s.flight.value; Credited(f, s.procs[f.hit], Credit(s.procs[f.hit], f))
  {
    FlightFacts(s);
    hide Invariant, RowSound, RowFits, IdOutstanding;
    var f := s.flight.value;
    SoundCredit(s.procs[f.hit], f);
  }

  lemma SoundCredit(p: Proc, f: Flight)
    requires ProcSound(p) && Within(f.scraped, p.counter)
    requires !p.harmed ==> Within(p.reported, f.scraped)
    requires !p.harmed && f.snap.last.Some? ==> Within(p.reported, f.snap.last.value)
    requires !p.tainted ==> f.snap.last == p.last && (p.last.Some? ==> Within(p.last.value, f.scraped))
    ensures Credited(f, p, Credit(p, f))
  {
    CreditKeepsRest(p, f);
    if !p.harmed {
      CreditFits(p, f);
    }
    if !p.tainted {
      CreditTelescopes(p, f);
    }
    hide Credit, Telescopes;
  }

  /** The entry of the row's own id gets the baseline, whichever process it manages by now. */
  lemma OwnEntry(s: State, q: Proc)
    requires Invariant(s) && s.flight.Some? && s.flight.value.snap.id in s.entries
    requires Credited(s.flight.value, s.procs[s.flight.value.hit], q)
    ensures var f := s.flight.value;
            var g := s.entries[f.snap.id].gen;
            g < |s.procs| && EntrySound(if g == f.hit then q else s.procs[g], Some(f.scraped))
  {
    FlightFacts(s);
    hide Invariant, ProcSound, IdOutstanding;
  }

  /** Entries of other ids keep their baseline; if the answering process is theirs, nothing was reported or they have none. */
  lemma OtherEntry(s: State, id: int, q: Proc)
    requires Invariant(s) && s.flight.Some? && id in s.entries && id != s.flight.value.snap.id
    requires Credited(s.flight.value, s.procs[s.flight.value.hit], q)
    ensures var f := s.flight.value;
            var g := s.entries[id].gen;
            g < |s.procs| && EntrySound(if g == f.hit then q else s.procs[g], s.entries[id].last)
  {
    FlightFacts(s);
    var g := s.entries[id].gen;
    assert g < |s.procs| && EntrySound(s.procs[g], s.entries[id].last) && s.procs[g].id == id;
    hide Invariant, ProcSound, IdOutstanding, RowSound;
  }

  lemma WriteBackAccounts(s: State)
    requires Invariant(s) && s.flight.Some? && Shape(After(s, WriteBack))
    ensures Accounted(After(s, WriteBack))
  {
    var s', f := After(s, WriteBack), s.flight.value;
    var q := Credit(s.procs[f.hit], f);
    CreditIsSound(s);
    assert forall g :: 0 <= g < |s.procs| ==> ProcSound(s.procs[g]);
    if f.snap.id in s.entries {
      OwnEntry(s, q);
    }
    forall id | id in s.entries && id != f.snap.id
      ensures s.entries[id].gen < |s.procs|
           && EntrySound(if s.entries[id].gen == f.hit then q else s.procs[s.entries[id].gen], s.entries[id].last)
    {
      OtherEntry(s, id, q);
    }
    hide Invariant, Credit, ProcSound, EntrySound, Shape;
  }

  /** A write-back does not concern the other rows. */
  lemma WriteBackRow(s: State, s': State, r: Snap, q: Proc)
    requires Invariant(s) && s.flight.Some? && RowFits(s, r) && RowSound(s, r)
    requires r.id != s.flight.value.snap.id && IdOutstanding(s, r.id)
    requires Credited(s.flight.value, s.procs[s.flight.value.hit], q)
    requires r.id in s.entries ==> s.entries[r.id].gen < |s.procs| && s.procs[s.entries[r.id].gen].id == r.id
    requires s'.procs == s.procs[s.flight.value.hit := q]
    requires (r.id in s'.entries <==> r.id in s.entries) && (r.id in s.entries ==> s'.entries[r.id] == s.entries[r.id])
    ensures RowSound(s', r)
  {
    FlightFacts(s);
    hide Invariant, IdOutstanding, ProcSound;
  }

  lemma RowsAfterFlight(s: State)
    requires Shape(s) && s.flight.Some?
    ensures Outstanding(s) == [s.flight.value.snap] + s.pending && Outstanding(After(s, WriteBack)) == s.pending
    ensures forall i :: 0 <= i < |s.pending| ==>
              s.pending[i].id != s.flight.value.snap.id && IdOutstanding(s, s.pending[i].id)
  {
    hide EntriesMatch;
    var f := s.flight.value;
    assert Outstanding(s) == [f.snap] + s.pending;
    LaterRows(s, f.snap, s.pending);
    forall i | 0 <= i < |s.pending| ensures IdOutstanding(s, s.pending[i].id) {
      assert Outstanding(s)[i + 1] == s.pending[i];
    }
  }

  lemma PendingRow(s: State, i: nat)
    requires Invariant(s) && s.flight.Some? && i < |s.pending|
    ensures s.pending[i].gen < |After(s, WriteBack).procs| && RowSound(After(s, WriteBack), s.pending[i])
  {
    var f, r := s.flight.value, s.pending[i];
    RowsAfterFlight(s);
    CreditIsSound(s);
    RowOf(s, i + 1);
    assert r.id in s.entries ==> s.entries[r.id].gen < |s.procs| && s.procs[s.entries[r.id].gen].id == r.id;
    hide Invariant, RowSound, Credit, Credited, IdOutstanding;
    WriteBackRow(s, After(s, WriteBack), r, Credit(s.procs[f.hit], f));
  }

  lemma WriteBackRows(s: State)
    requires Invariant(s) && s.flight.Some? && Shape(After(s, WriteBack))
    ensures RowsSound(After(s, WriteBack))
  {
    var s' := After(s, WriteBack);
    RowsAfterFlight(s);
    hide RowSound, RowFits, Invariant, Shape;
    forall i | 0 <= i < |s.pending| ensures RowFits(s', s.pending[i]) && RowSound(s', s.pending[i]) {
      SameRow(s', i);
      PendingRow(s, i);
    }
    AllRows(s', s.pending);
  }

  lemma WriteBackPorts(s: State)
    requires Invariant(s) && s.flight.Some?
    ensures PortsSound(After(s, WriteBack))
  {
    var s', f := After(s, WriteBack), s.flight.value;
    assert Outstanding(s) == [f.snap] + s.pending && Outstanding(s') == s.pending == Outstanding(s)[1..];
    LaterRows(s, f.snap, s.pending);
    CreditKeepsRest(s.procs[f.hit], f);
    FewerRows(s, s');
    assert IdOutstanding(s, f.snap.id) by { assert Outstanding(s)[0].id == f.snap.id; }
    assert s.procs[f.hit].port == f.snap.port;
    hide RowsFit, EntriesMatch, RowsSound, Accounted, Credit, IdOutstanding, FlightSound;
    forall i, g | 0 <= i < |s.pending| && 0 <= g < |s'.procs| && s'.procs[g].alive && s'.procs[g].port == s.pending[i].port
      ensures AnswerSound(s', s.pending[i], g)
    {
      assert g != f.hit && AnswerSound(s, s.pending[i], g);
      AnswerStays(s, s', s.pending[i], g);
    }
  }

  lemma AnswerStays(s: State, s': State, r: Snap, g: nat)
    requires g < |s.procs| && g < |s'.procs| && s'.procs[g] == s.procs[g] && AnswerSound(s, r, g)
    requires forall id :: IdOutstanding(s', id) ==> IdOutstanding(s, id)
    requires forall id :: id in s'.entries <==> id in s.entries
    requires forall id :: id in s.entries && s'.entries[id] != s.entries[id] ==>
               s'.entries[id].gen == s.entries[id].gen && IdOutstanding(s, id)
    ensures AnswerSound(s', r, g)
  {
    hide IdOutstanding;
  }

  lemma WriteBackKeeps(s: State)
    requires Invariant(s) && s.flight.Some?
    ensures Invariant(After(s, WriteBack))
  {
    StepKeepsShape(s, WriteBack);
    WriteBackRows(s);
    WriteBackPorts(s);
    WriteBackAccounts(s);
    hide Shape, RowsSound, PortsSound, Accounted;
  }

  lemma EveryEventKeeps(s: State, e: Event)
    requires Invariant(s) && Enabled(s, e)
    ensures Invariant(After(s, e))
  {
    hide Invariant, Kill, Harmful, Disturbed, IsSnapshot;
    match e
    case Start(_, _) => StartKeeps(s, e);
    case Snapshot(rows) => SnapshotKeeps(s, rows);
    case Scrape(hit) => if hit.Some? { HitKeeps(s, hit.value); } else { MissKeeps(s); }
    case WriteBack => WriteBackKeeps(s);
    case _ => QuietStepKeeps(s, e);
  }

  // ---------------------------------------------------------------- main results

  lemma {:induction false} RunKeepsInvariant(s: State, events: seq<Event>)
    requires Invariant(s) && Exec(s, events).Some?
    ensures Invariant(Exec(s, events).value)
    decreases |events|
  {
    hide Invariant, Enabled, After;
    if events != [] {
      EveryEventKeeps(s, events[0]);
      RunKeepsInvariant(After(s, events[0]), events[1..]);
    }
  }

  lemma InitSound()
    ensures Invariant(INIT)
  {
    assert Outstanding(INIT) == [];
  }

  /**
  Traffic is never over-counted, process by process: in every run the deltas reported for each
  generation whose own start was not harmful sum to at most its counter, whatever restarts, crashes,
  reused ports, failed scrapes and harmful starts of others come between the collector's steps.
  */
  lemma NeverOverCounted(events: seq<Event>, g: nat)
    requires Exec(INIT, events).Some? && g < |Exec(INIT, events).value.procs|
    ensures var p := Exec(INIT, events).value.procs[g]; !p.harmed ==> Within(p.reported, p.counter)
  {
    InitSound();
    RunKeepsInvariant(INIT, events);
    assert ProcSound(Exec(INIT, events).value.procs[g]);
  }

  /**
  In every run a process whose own start was not disturbed, managed or not by now, has reported
  exactly the last scrape written back for it less the first.
  */
  lemma ReportsTelescope(events: seq<Event>, g: nat)
    requires Exec(INIT, events).Some? && g < |Exec(INIT, events).value.procs|
    ensures var p := Exec(INIT, events).value.procs[g];
            !p.tainted && p.last.Some? ==> p.first.Some? && SumsTo(p.first.value, p.reported, p.last.value)
  {
    InitSound();
    RunKeepsInvariant(INIT, events);
    assert ProcSound(Exec(INIT, events).value.procs[g]);
  }

  // ---------------------------------------------------------------- a harmful start over-counts

  lemma {:induction false} ExecAppend(s: State, a: seq<Event>, b: seq<Event>)
    ensures Exec(s, a + b) == match Exec(s, a) case None => None case Some(t) => Exec(t, b)
    decreases |a|
  {
    hide Enabled, After;
    if a == [] {
      assert a + b == b;
    } else {
      assert (a + b)[1..] == a[1..] + b;
      if Enabled(s, a[0]) {
        ExecAppend(After(s, a[0]), a[1..], b);
      }
    }
  }

  lemma ExecThen(s: State, events: seq<Event>, t: State, e: Event)
    requires Exec(s, events) == Some(t) && Enabled(t, e)
    ensures Exec(s, events + [e]) == Some(After(t, e))
  {
    hide Enabled, After;
    ExecAppend(s, events, [e]);
    assert [e][1..] == [];
  }

  lemma {:induction false} ExecKeepsShape(s: State, events: seq<Event>)
    requires Shape(s) && Exec(s, events).Some?
    ensures Shape(Exec(s, events).value)
    decreases |events|
  {
    hide Enabled, After, Shape;
    if events != [] {
      StepKeepsShape(s, events[0]);
      ExecKeepsShape(After(s, events[0]), events[1..]);
    }
  }

  /**
  The process `g` of inbound `id` listens on `port` with `n` bytes counted, all other counters are at
  most `bound`, and so is the baseline of a row that will be answered by `g`.
  */
  predicate Primed(s: State, g: nat, id: int, port: int, n: nat, bound: nat) {
    && Shape(s) && s.flight == None && Live(s, g) && IsEntryOf(s, id, g)
    && s.procs[g].port == port && s.procs[g].counter.up == n
    && (forall h :: 0 <= h < |s.procs| && h != g ==> s.procs[h].counter.up <= bound)
    && (forall i :: 0 <= i < |s.pending| && s.pending[i].port == port ==>
          s.pending[i].id != id && s.pending[i].last.Some? && s.pending[i].last.value.up <= bound)
  }

  /** The baseline of `id` comes from another process. */
  predicate Stale(s: State, id: int, bound: nat) {
    id in s.entries && s.entries[id].last.Some? && s.entries[id].last.value.up <= bound
  }

  /** Most of what `g` counted is reported. */
  predicate Lifted(s: State, g: nat, n: nat, bound: nat) { g < |s.procs| && s.procs[g].reported.up + bound >= n }

  /** An id above all ids ever managed, and a bound on all counters. */
  lemma {:induction false} AboveAll(procs: seq<Proc>) returns (id: int, bound: nat)
    ensures forall h :: 0 <= h < |procs| ==> procs[h].id < id && procs[h].counter.up <= bound
  {
    if procs == [] {
      id, bound := 0, 0;
    } else {
      var last := procs[|procs| - 1];
      id, bound := AboveAll(procs[..|procs| - 1]);
      id := if last.id < id then id else last.id + 1;
      bound := bound + last.counter.up;
    }
  }

  lemma CreditUp(p: Proc, f: Flight)
    ensures Credit(p, f).reported.up >= p.reported.up
    ensures f.snap.last.Some? ==> Credit(p, f).reported.up + f.snap.last.value.up >= f.scraped.up
    ensures Credit(p, f).counter == p.counter && Credit(p, f).id == p.id && Credit(p, f).port == p.port
    ensures Credit(p, f).alive == p.alive
  {
  }

  /** A write-back keeps `g` primed; the flight was answered by `g` for another id, or by another process. */
  lemma WriteBackPrimed(s: State, g: nat, id: int, port: int, n: nat, bound: nat)
    requires s.flight.Some? && Shape(s) && Primed(s.(flight := None), g, id, port, n, bound)
    requires var f := s.flight.value;
             if f.hit == g then f.snap.id != id && f.scraped.up == n && f.snap.last.Some? && f.snap.last.value.up <= bound
             else f.scraped.up <= bound
    ensures var s', f := After(s, WriteBack), s.flight.value;
            && Primed(s', g, id, port, n, bound) && s'.pending == s.pending
            && (f.hit == g || Lifted(s, g, n, bound) ==> Lifted(s', g, n, bound))
            && (f.snap.id == id || Stale(s, id, bound) ==> Stale(s', id, bound))
  {
    var f := s.flight.value;
    StepKeepsShape(s, WriteBack);
    CreditUp(s.procs[f.hit], f);
    hide Shape, Credit;
  }

  /** The first row is answered by the live process on its port. */
  lemma AnswerRow(s: State, q: nat, g: nat, id: int, port: int, n: nat, bound: nat) returns (s': State)
    requires Primed(s, g, id, port, n, bound) && s.pending != [] && Live(s, q) && s.procs[q].port == s.pending[0].port
    requires q == g <==> s.pending[0].port == port
    ensures Exec(s, [Scrape(Some(q)), WriteBack]) == Some(s') && Primed(s', g, id, port, n, bound)
    ensures s'.pending == s.pending[1..]
    ensures q == g || Lifted(s, g, n, bound) ==> Lifted(s', g, n, bound)
    ensures s.pending[0].id == id || Stale(s, id, bound) ==> Stale(s', id, bound)
  {
    var t := After(s, Scrape(Some(q)));
    StepKeepsShape(s, Scrape(Some(q)));
    StepKeepsShape(s, Scrape(None));
    assert t.(flight := None) == After(s, Scrape(None));
    DropRowPrimed(s, g, id, port, n, bound);
    WriteBackPrimed(t, g, id, port, n, bound);
    s' := After(t, WriteBack);
    assert [Scrape(Some(q)), WriteBack][1..] == [WriteBack] && [WriteBack][1..] == [];
    assert Exec(t, [WriteBack]) == Some(s') by { assert Exec(s', []) == Some(s'); hide After; }
    hide After, Primed, Lifted, Stale;
  }

  lemma DropRowPrimed(s: State, g: nat, id: int, port: int, n: nat, bound: nat)
    requires Primed(s, g, id, port, n, bound) && s.pending != []
    ensures var s' := After(s, Scrape(None));
            Primed(s', g, id, port, n, bound) && s'.pending == s.pending[1..]
  {
    StepKeepsShape(s, Scrape(None));
    hide Shape;
    var s' := After(s, Scrape(None));
    assert forall i :: 0 <= i < |s'.pending| ==> s'.pending[i] == s.pending[i + 1];
  }

  /** If nobody answers on a port, a new inbound can be started there; nothing else changes. */
  lemma Occupy(s: State, port: int) returns (es: seq<Event>, s': State, q: nat)
    requires Shape(s)
    ensures Exec(s, es) == Some(s') && Shape(s') && s'.pending == s.pending && s'.flight == s.flight
    ensures Live(s', q) && s'.procs[q].port == port
    ensures s'.procs == s.procs || (|s'.procs| == |s.procs| + 1 && s'.procs[..|s.procs|] == s.procs && q == |s.procs|)
    ensures q == |s.procs| ==> s'.procs[q].counter == Count(0, 0)
    ensures forall id :: id in s.entries ==> id in s'.entries && s'.entries[id] == s.entries[id]
  {
    if PortFree(s, port) {
      var id, _ := AboveAll(s.procs);
      var e := Start(id, port);
      assert id !in s.entries;
      StepKeepsShape(s, e);
      s', q, es := After(s, e), |s.procs|, [e];
      assert es[1..] == [];
      hide Shape, Disturbed, Harmful;
      assert s'.procs[..|s.procs|] == s.procs;
    } else {
      q :| 0 <= q < |s.procs| && s.procs[q].alive && s.procs[q].port == port;
      s', es := s, [];
    }
  }

  lemma Occupied(s: State, port: int, g: nat, id: int, own: int, n: nat, bound: nat)
    returns (es: seq<Event>, s': State, q: nat)
    requires Primed(s, g, id, own, n, bound) && port != own
    ensures Exec(s, es) == Some(s') && Primed(s', g, id, own, n, bound) && s'.pending == s.pending
    ensures Live(s', q) && s'.procs[q].port == port && q != g
    ensures Lifted(s, g, n, bound) ==> Lifted(s', g, n, bound)
    ensures Stale(s, id, bound) ==> Stale(s', id, bound)
  {
    es, s', q := Occupy(s, port);
    hide Shape, Exec;
    assert forall h :: 0 <= h < |s.procs| ==> s'.procs[h] == s'.procs[..|s.procs|][h];
  }

  /** One row less: missed, answered by `g`, or answered by somebody else if it is the row of `id`. */
  lemma DrainOne(s: State, g: nat, id: int, port: int, n: nat, bound: nat) returns (es: seq<Event>, s': State)
    requires Primed(s, g, id, port, n, bound) && s.pending != []
    ensures Exec(s, es) == Some(s') && Primed(s', g, id, port, n, bound) && s'.pending == s.pending[1..]
    ensures s.pending[0].port == port || Lifted(s, g, n, bound) ==> Lifted(s', g, n, bound)
    ensures s.pending[0].id == id || Stale(s, id, bound) ==> Stale(s', id, bound)
  {
    hide After, Primed, Lifted, Stale, Exec, Enabled;
    var row := s.pending[0];
    if row.port == port {
      assert Live(s, g) && s.procs[g].port == port by { PrimedProc(s, g, id, port, n, bound); }
      s' := AnswerRow(s, g, g, id, port, n, bound);
      es := [Scrape(Some(g)), WriteBack];
    } else if row.id == id {
      var before, t, q := Occupied(s, row.port, g, id, port, n, bound);
      s' := AnswerRow(t, q, g, id, port, n, bound);
      es := before + [Scrape(Some(q)), WriteBack];
      ExecAppend(s, before, [Scrape(Some(q)), WriteBack]);
    } else {
      es, s' := Missed(s, g, id, port, n, bound);
    }
  }

  lemma PrimedProc(s: State, g: nat, id: int, port: int, n: nat, bound: nat)
    requires Primed(s, g, id, port, n, bound)
    ensures Live(s, g) && s.procs[g].port == port && s.procs[g].counter.up == n
  {
  }

  lemma Missed(s: State, g: nat, id: int, port: int, n: nat, bound: nat) returns (es: seq<Event>, s': State)
    requires Primed(s, g, id, port, n, bound) && s.pending != []
    ensures Exec(s, es) == Some(s') && Primed(s', g, id, port, n, bound) && s'.pending == s.pending[1..]
    ensures Lifted(s, g, n, bound) ==> Lifted(s', g, n, bound)
    ensures Stale(s, id, bound) ==> Stale(s', id, bound)
  {
    DropRowPrimed(s, g, id, port, n, bound);
    es, s' := [Scrape(None)], After(s, Scrape(None));
    assert es[1..] == [];
    hide Shape;
  }

  predicate RowOnPort(rows: seq<Snap>, port: int) { exists i :: 0 <= i < |rows| && rows[i].port == port }

  predicate RowOfId(rows: seq<Snap>, id: int) { exists i :: 0 <= i < |rows| && rows[i].id == id }

  lemma {:induction false} Drain(s: State, g: nat, id: int, port: int, n: nat, bound: nat) returns (es: seq<Event>, s': State)
    requires Primed(s, g, id, port, n, bound)
    requires Lifted(s, g, n, bound) || RowOnPort(s.pending, port)
    requires Stale(s, id, bound) || RowOfId(s.pending, id)
    ensures Exec(s, es) == Some(s') && Primed(s', g, id, port, n, bound) && s'.pending == []
    ensures Lifted(s', g, n, bound) && Stale(s', id, bound)
    decreases |s.pending|
  {
    hide Primed, Lifted, Stale, Enabled, After;
    if s.pending == [] {
      es, s' := [], s;
    } else {
      var first, t := DrainOne(s, g, id, port, n, bound);
      assert forall i :: 0 < i < |s.pending| ==> s.pending[i] == t.pending[i - 1];
      var more;
      more, s' := Drain(t, g, id, port, n, bound);
      es := first + more;
      ExecAppend(s, first, more);
    }
  }

  /** All processes from `k` on but `g` end. */
  predicate Silenced(s: State, t: State, g: nat, k: nat) {
    && t.entries == s.entries && t.pending == s.pending && t.flight == s.flight && |t.procs| == |s.procs|
    && (forall h :: 0 <= h < |s.procs| ==> t.procs[h] == if h != g && h >= k then s.procs[h].(alive := false) else s.procs[h])
  }

  lemma {:induction false} Silence(s: State, g: nat, k: nat) returns (es: seq<Event>, t: State)
    requires k <= |s.procs|
    ensures Exec(s, es) == Some(t) && Silenced(s, t, g, k)
    decreases |s.procs| - k
  {
    if k == |s.procs| {
      es, t := [], s;
    } else {
      var before, u := Silence(s, g, k + 1);
      if k == g {
        es, t := before, u;
      } else {
        es, t := before + [Exit(k)], After(u, Exit(k));
        ExecThen(s, before, u, Exit(k));
      }
    }
  }

  /** With everything else silent, one more collection scrapes just `g`. */
  lemma CollectAlone(s: State, g: nat, id: int) returns (es: seq<Event>, t: State)
    requires Shape(s) && s.pending == [] && s.flight == None && Live(s, g) && IsEntryOf(s, id, g)
    requires forall h :: 0 <= h < |s.procs| && s.procs[h].alive ==> h == g
    ensures Exec(s, es) == Some(t) && |t.procs| == |s.procs|
    ensures t.procs[g] == Credit(s.procs[g], Flight(Snap(id, s.procs[g].port, s.entries[id].last, g), s.procs[g].counter, g))
  {
    var row := Snap(id, s.procs[g].port, s.entries[id].last, g);
    SoleRow(s, g, id, row);
    var s1 := s.(pending := [row]);
    var f := Flight(row, s.procs[g].counter, g);
    var s2 := s1.(pending := [], flight := Some(f));
    assert [row][1..] == [];
    t := After(s2, WriteBack);
    ThreeSteps(s, Snapshot([row]), Scrape(Some(g)), WriteBack);
    es := [Snapshot([row]), Scrape(Some(g)), WriteBack];
    assert After(s, Snapshot([row])) == s1 && After(s1, Scrape(Some(g))) == s2;
    hide Credit, IsSnapshot;
  }

  /** One more collection reports most of the counter once more. */
  lemma LastCollection(s: State, g: nat, id: int, port: int, n: nat, bound: nat) returns (es: seq<Event>, t: State)
    requires Primed(s, g, id, port, n, bound) && s.pending == [] && Lifted(s, g, n, bound) && Stale(s, id, bound)
    requires n > 2 * bound && forall h :: 0 <= h < |s.procs| && s.procs[h].alive ==> h == g
    ensures Exec(s, es) == Some(t) && g < |t.procs| && !Within(t.procs[g].reported, t.procs[g].counter)
  {
    es, t := CollectAlone(s, g, id);
    CreditUp(s.procs[g], Flight(Snap(id, port, s.entries[id].last, g), s.procs[g].counter, g));
    hide Credit, Exec;
  }

  lemma SoleRow(s: State, g: nat, id: int, row: Snap)
    requires EntriesMatch(s) && Live(s, g) && IsEntryOf(s, id, g) && (forall h :: 0 <= h < |s.procs| && s.procs[h].alive ==> h == g)
    requires row == Snap(id, s.procs[g].port, s.entries[id].last, g)
    ensures IsSnapshot(s, [row])
  {
    assert [row][0].id == id;
  }

  lemma ThreeSteps(s: State, a: Event, b: Event, c: Event)
    requires Enabled(s, a) && Enabled(After(s, a), b) && Enabled(After(After(s, a), b), c)
    ensures Exec(s, [a, b, c]) == Some(After(After(After(s, a), b), c))
  {
    hide Enabled, After;
    var none: seq<Event> := [];
    assert [a, b, c][1..] == [b, c] && [b, c][1..] == [c] && [c][1..] == none;
    var t := After(After(After(s, a), b), c);
    assert Exec(t, none) == Some(t);
    assert Exec(After(After(s, a), b), [c]) == Some(t);
    assert Exec(After(s, a), [b, c]) == Some(t);
  }

  lemma NoFlightShape(s: State)
    requires Shape(s)
    ensures Shape(s.(flight := None))
  {
    var s' := s.(flight := None);
    hide EntriesMatch, RowsFit;
    if s.flight.Some? {
      assert Outstanding(s) == [s.flight.value.snap] + s.pending;
      LaterRows(s, s.flight.value.snap, s.pending);
    } else {
      assert Outstanding(s) == s.pending;
    }
    assert Outstanding(s') == s.pending;
    SameFit(s, s', s.pending);
    SameEntries(s, s');
  }

  lemma SameEntries(s: State, s': State)
    requires EntriesMatch(s) && s'.procs == s.procs && s'.entries == s.entries
    ensures EntriesMatch(s')
  {
  }

  /** The row that makes a start harmful is the only one on its port. */
  lemma HarmfulRow(s: State, e: Event) returns (r: Snap)
    requires Shape(s) && e.Start? && Harmful(s, e.id, e.port)
    ensures r.id != e.id && r.port == e.port && r.last.Some? && RowOnPort(s.pending, e.port)
    ensures forall i :: 0 <= i < |s.pending| && s.pending[i].port == e.port ==> s.pending[i] == r
    ensures s.flight.Some? ==> s.flight.value.snap.port != e.port
    ensures RowOfId(s.pending, e.id) || (s.flight.Some? && s.flight.value.snap.id == e.id)
  {
    var k :| 0 <= k < |s.pending| && s.pending[k].port == e.port && s.pending[k].id != e.id && s.pending[k].last.Some?;
    r := s.pending[k];
    PendingFit(s, e.id);
    hide Shape, IdOutstanding;
    OnlyOnPort(s, s.pending, k);
  }

  lemma PendingFit(s: State, id: int)
    requires Shape(s)
    ensures RowsFit(s, s.pending)
    ensures s.flight.Some? ==>
              forall i :: 0 <= i < |s.pending| ==> s.pending[i].port != s.flight.value.snap.port
    ensures IdOutstanding(s, id) ==> RowOfId(s.pending, id) || (s.flight.Some? && s.flight.value.snap.id == id)
  {
    hide EntriesMatch, RowsFit;
    if s.flight.Some? {
      assert Outstanding(s) == [s.flight.value.snap] + s.pending;
      LaterRows(s, s.flight.value.snap, s.pending);
    } else {
      assert Outstanding(s) == s.pending;
    }
  }

  lemma OnlyOnPort(s: State, rows: seq<Snap>, k: nat)
    requires RowsFit(s, rows) && k < |rows|
    ensures forall i :: 0 <= i < |rows| && rows[i].port == rows[k].port ==> rows[i] == rows[k]
  {
  }

  /** After a harmful start and some traffic the new process is primed; a flight is written back first. */
  lemma Prime(s: State, e: Event) returns (es: seq<Event>, t: State, n: nat, bound: nat)
    requires Shape(s) && e.Start? && Enabled(s, e) && Harmful(s, e.id, e.port)
    ensures n > 2 * bound && Exec(After(s, e), es) == Some(t) && Primed(t, |s.procs|, e.id, e.port, n, bound)
    ensures RowOnPort(t.pending, e.port) && (Stale(t, e.id, bound) || RowOfId(t.pending, e.id))
  {
    var g := |s.procs|;
    var r := HarmfulRow(s, e);
    var _, counters := AboveAll(s.procs);
    bound := counters + r.last.value.up + (if s.flight.Some? then s.flight.value.scraped.up else 0);
    n := 2 * bound + 1;
    var s1 := After(s, e);
    var serve := Serve(g, Count(n, 0));
    var s2 := After(s1, serve);
    StepKeepsShape(s, e);
    StepKeepsShape(s1, serve);
    NoFlightShape(s2);
    PrimedNow(s, e, r, n, bound);
    hide Shape, Primed, RowOnPort, RowOfId, Harmful;
    assert [serve][1..] == [];
    if s2.flight.Some? {
      WriteBackPrimed(s2, g, e.id, e.port, n, bound);
      es, t := [serve, WriteBack], After(s2, WriteBack);
      assert [serve, WriteBack][1..] == [WriteBack] && [WriteBack][1..] == [];
    } else {
      assert s2.(flight := None) == s2;
      es, t := [serve], s2;
    }
  }

  lemma PrimedNow(s: State, e: Event, r: Snap, n: nat, bound: nat)
    requires Shape(s) && e.Start? && Enabled(s, e)
    requires r.id != e.id && r.last.Some? && r.last.value.up <= bound
    requires forall i :: 0 <= i < |s.pending| && s.pending[i].port == e.port ==> s.pending[i] == r
    requires forall h :: 0 <= h < |s.procs| ==> s.procs[h].counter.up <= bound
    requires Shape(After(After(s, e), Serve(|s.procs|, Count(n, 0))).(flight := None))
    ensures Primed(After(After(s, e), Serve(|s.procs|, Count(n, 0))).(flight := None), |s.procs|, e.id, e.port, n, bound)
  {
    hide Shape;
  }

  lemma SilencedPrimed(s: State, es: seq<Event>, t: State, g: nat, id: int, port: int, n: nat, bound: nat)
    requires Primed(s, g, id, port, n, bound) && Exec(s, es) == Some(t) && Silenced(s, t, g, 0)
    ensures Primed(t, g, id, port, n, bound) && t.pending == s.pending
    ensures forall h :: 0 <= h < |t.procs| && t.procs[h].alive ==> h == g
    ensures Lifted(s, g, n, bound) ==> Lifted(t, g, n, bound)
    ensures Stale(s, id, bound) ==> Stale(t, id, bound)
  {
    ExecKeepsShape(s, es);
    hide Shape, Exec;
  }

  /**
  The other half: from every reachable state every harmful start can be continued to a run that
  reports more for the started process than it counted.
  */
  lemma HarmfulStartOverCounts(events: seq<Event>, e: Event) returns (more: seq<Event>, g: nat)
    requires Exec(INIT, events).Some? && e.Start? && Enabled(Exec(INIT, events).value, e)
    requires Harmful(Exec(INIT, events).value, e.id, e.port)
    ensures Exec(INIT, events + [e] + more).Some?
    ensures g == |Exec(INIT, events).value.procs|
    ensures var t := Exec(INIT, events + [e] + more).value;
            g < |t.procs| && !Within(t.procs[g].reported, t.procs[g].counter)
  {
    InitSound();
    ExecKeepsShape(INIT, events);
    var s := Exec(INIT, events).value;
    ExecThen(INIT, events, s, e);
    g := |s.procs|;
    hide Shape, Primed, Lifted, Stale, Enabled, After, Harmful, Exec, RowOnPort, RowOfId, Silenced;
    var a, s1, n, bound := Prime(s, e);
    var b, s2 := Drain(s1, g, e.id, e.port, n, bound);
    var c, s3 := Silence(s2, g, 0);
    SilencedPrimed(s2, c, s3, g, e.id, e.port, n, bound);
    var d, t := LastCollection(s3, g, e.id, e.port, n, bound);
    more := a + b + c + d;
    ExecAppend(After(s, e), a + b + c, d);
    ExecAppend(After(s, e), a + b, c);
    ExecAppend(After(s, e), a, b);
    ExecAppend(INIT, events + [e], more);
  }

  // ---------------------------------------------------------------- a disturbed start does not telescope

  /** The reports are not last scrape less first. */
  predicate Broken(s: State, g: nat) {
    g < |s.procs| &&
    var p := s.procs[g];
    p.first.Some? && p.last.Some? && !SumsTo(p.first.value, p.reported, p.last.value)
  }

  /** Nothing is reported for `g`, and the baseline of its entry is not its last scrape. */
  predicate Skewed(s: State, g: nat, id: int) {
    && Shape(s) && s.flight == None && Live(s, g) && IsEntryOf(s, id, g)
    && var p, last := s.procs[g], s.entries[id].last;
       && IsZero(p.reported) && p.first == p.last && p.last.Some? != last.Some?
       && (p.last.Some? ==> Within(p.last.value, p.counter))
  }

  lemma {:induction false} Misses(s: State, k: nat) returns (es: seq<Event>)
    requires s.flight == None && k <= |s.pending|
    ensures Exec(s, es) == Some(s.(pending := s.pending[k..]))
  {
    if k == 0 {
      es := [];
      assert s.pending[0..] == s.pending;
    } else {
      var before := Misses(s, k - 1);
      var t := s.(pending := s.pending[k - 1..]);
      ExecThen(s, before, t, Scrape(None));
      es := before + [Scrape(None)];
      assert t.pending[1..] == s.pending[k..];
    }
  }

  /** Whatever is credited to a skewed process after more traffic breaks the sum. */
  lemma SkewedCredit(p: Proc, f: Flight)
    requires IsZero(p.reported) && p.first == p.last && p.last.Some? != f.snap.last.Some?
    requires p.last.Some? ==> f.scraped.up > p.last.value.up
    requires f.snap.last.Some? ==> f.scraped.up > f.snap.last.value.up
    ensures var q := Credit(p, f); q.first.Some? && q.last.Some? && !SumsTo(q.first.value, q.reported, q.last.value)
  {
    CreditParts(p, f);
    CreditKeepsRest(p, f);
    hide Credit;
  }

  /** Nothing is pending any more, and there is new traffic to report. */
  predicate Poised(s: State, g: nat, id: int) {
    && Skewed(s, g, id) && s.pending == []
    && var p, last := s.procs[g], s.entries[id].last;
       (p.last.Some? ==> p.counter.up > p.last.value.up) && (last.Some? ==> p.counter.up > last.value.up)
  }

  lemma ServeMore(s: State, g: nat, id: int) returns (es: seq<Event>, t: State)
    requires Skewed(s, g, id)
    ensures Exec(s, es) == Some(t) && Poised(t, g, id)
  {
    hide Shape, Exec;
    var misses := Misses(s, |s.pending|);
    var s1 := s.(pending := []);
    assert s.pending[|s.pending|..] == [];
    var serve := Serve(g, Count(if s.entries[id].last.Some? then s.entries[id].last.value.up + 1 else 1, 0));
    ExecThen(s, misses, s1, serve);
    ExecKeepsShape(s, misses + [serve]);
    es, t := misses + [serve], After(s1, serve);
  }

  lemma SilencedPoised(s: State, es: seq<Event>, t: State, g: nat, id: int)
    requires Poised(s, g, id) && Exec(s, es) == Some(t) && Silenced(s, t, g, 0)
    ensures Poised(t, g, id) && forall h :: 0 <= h < |t.procs| && t.procs[h].alive ==> h == g
  {
    ExecKeepsShape(s, es);
    hide Shape, Exec;
  }

  lemma PoisedBreaks(s: State, g: nat, id: int) returns (es: seq<Event>, t: State)
    requires Poised(s, g, id) && forall h :: 0 <= h < |s.procs| && s.procs[h].alive ==> h == g
    ensures Exec(s, es) == Some(t) && Broken(t, g)
  {
    hide Exec, Credit, Shape, DeltaOf;
    es, t := CollectAlone(s, g, id);
    SkewedCredit(s.procs[g], Flight(Snap(id, s.procs[g].port, s.entries[id].last, g), s.procs[g].counter, g));
  }

  lemma SkewedBreaks(s: State, g: nat, id: int) returns (es: seq<Event>, t: State)
    requires Skewed(s, g, id)
    ensures Exec(s, es) == Some(t) && Broken(t, g)
  {
    hide Skewed, Poised, Broken, Exec, Silenced;
    var served, s1 := ServeMore(s, g, id);
    var silence, s2 := Silence(s1, g, 0);
    SilencedPoised(s1, silence, s2, g, id);
    var last;
    last, t := PoisedBreaks(s2, g, id);
    ExecAppend(s1, silence, last);
    ExecAppend(s, served, silence + last);
    es := served + (silence + last);
  }

  /** A new process that nobody has scraped yet. */
  predicate Unscraped(s: State, g: nat, id: int, port: int) {
    && Shape(s) && s.flight == None && Live(s, g) && s.procs[g].port == port && s.entries.Keys >= {id}
    && s.entries[id] == Entry(g, None) && s.procs[g].id == id
    && var p := s.procs[g]; IsZero(p.reported) && p.first == None && p.last == None
  }

  /** A row of the inbound on another port is answered there. */
  lemma OtherPortSkews(s: State, g: nat, id: int, port: int) returns (es: seq<Event>, t: State)
    requires Unscraped(s, g, id, port) && s.pending != [] && s.pending[0].id == id && s.pending[0].port != port
    ensures Exec(s, es) == Some(t) && Skewed(t, g, id)
  {
    hide Exec, Shape;
    var before, u, q := Occupy(s, s.pending[0].port);
    assert u.procs[g] == u.procs[..|s.procs|][g];
    t := ScrapeFirst(u, q);
    es := before + [Scrape(Some(q)), WriteBack];
    ExecAppend(s, before, [Scrape(Some(q)), WriteBack]);
  }

  /** The first row is answered and written back. */
  lemma ScrapeFirst(s: State, q: nat) returns (t: State)
    requires Shape(s) && s.flight == None && s.pending != [] && Live(s, q) && s.procs[q].port == s.pending[0].port
    ensures Exec(s, [Scrape(Some(q)), WriteBack]) == Some(t) && Shape(t) && t.flight == None
    ensures var f := Flight(s.pending[0], s.procs[q].counter, q); t.procs == s.procs[q := Credit(s.procs[q], f)]
    ensures t.entries.Keys == s.entries.Keys
    ensures forall id :: id in s.entries ==>
              t.entries[id] == if id == s.pending[0].id then s.entries[id].(last := Some(s.procs[q].counter)) else s.entries[id]
  {
    var e, u := Scrape(Some(q)), After(s, Scrape(Some(q)));
    StepKeepsShape(s, e);
    StepKeepsShape(u, WriteBack);
    t := After(u, WriteBack);
    hide Shape, Credit;
    var none: seq<Event> := [];
    assert [e, WriteBack][1..] == [WriteBack] && [WriteBack][1..] == none;
    assert Exec(t, none) == Some(t);
    assert Exec(u, [WriteBack]) == Some(t);
  }

  /** A row without baseline of another inbound on the port is answered by the new process. */
  lemma FirstScrapeSkews(s: State, g: nat, id: int, port: int) returns (es: seq<Event>, t: State)
    requires Unscraped(s, g, id, port) && s.pending != []
    requires s.pending[0].id != id && s.pending[0].port == port && s.pending[0].last == None
    ensures Exec(s, es) == Some(t) && Skewed(t, g, id)
  {
    hide Exec, Shape, Credit, DeltaOf;
    var f := Flight(s.pending[0], s.procs[g].counter, g);
    CreditParts(s.procs[g], f);
    CreditKeepsRest(s.procs[g], f);
    t := ScrapeFirst(s, g);
    es := [Scrape(Some(g)), WriteBack];
  }

  /** A row with a baseline on the port is answered by the new process: its traffic is less than what it scraped. */
  lemma OldBaselineBreaks(s: State, g: nat, id: int, port: int) returns (es: seq<Event>, t: State)
    requires Unscraped(s, g, id, port) && s.pending != [] && s.pending[0].port == port && s.pending[0].last.Some?
    ensures Exec(s, es) == Some(t) && Broken(t, g)
  {
    var serve := Serve(g, Count(s.pending[0].last.value.up + 1, 0));
    var u := After(s, serve);
    StepKeepsShape(s, serve);
    var f := Flight(u.pending[0], u.procs[g].counter, g);
    SkewedCredit(u.procs[g], f);
    t := ScrapeFirst(u, g);
    es := [serve] + [Scrape(Some(g)), WriteBack];
    assert [serve][1..] == [];
    ExecAppend(s, [serve], [Scrape(Some(g)), WriteBack]);
    hide Exec, Shape, Credit;
  }

  /** Rows before the one that matters are missed. */
  lemma RowBreaks(s: State, g: nat, id: int, port: int, i: nat) returns (es: seq<Event>, t: State)
    requires Unscraped(s, g, id, port) && i < |s.pending|
    requires (s.pending[i].id == id || s.pending[i].port == port) && !OwnRow(s.pending[i], id, port)
    ensures Exec(s, es) == Some(t) && Broken(t, g)
  {
    var before := Misses(s, i);
    var u := s.(pending := s.pending[i..]);
    ExecKeepsShape(s, before);
    assert Unscraped(u, g, id, port) && u.pending[0] == s.pending[i];
    hide Unscraped, Exec, Shape;
    var more;
    if u.pending[0].port == port && u.pending[0].last.Some? {
      more, t := OldBaselineBreaks(u, g, id, port);
    } else {
      var skew, v;
      if u.pending[0].port == port {
        skew, v := FirstScrapeSkews(u, g, id, port);
      } else {
        skew, v := OtherPortSkews(u, g, id, port);
      }
      var last;
      last, t := SkewedBreaks(v, g, id);
      more := skew + last;
      ExecAppend(u, skew, last);
    }
    es := before + more;
    ExecAppend(s, before, more);
  }

  /** The row on its way is written back. */
  lemma FlightWritten(s: State, g: nat, id: int, port: int) returns (t: State)
    requires Unscraped(s.(flight := None), g, id, port) && Shape(s) && s.flight.Some? && s.flight.value.hit != g
    ensures Exec(s, [WriteBack]) == Some(t) && t.pending == s.pending
    ensures if s.flight.value.snap.id == id then Skewed(t, g, id) else Unscraped(t, g, id, port)
  {
    StepKeepsShape(s, WriteBack);
    t := After(s, WriteBack);
    assert [WriteBack][1..] == [];
    hide Shape, Credit;
  }

  /**
  The other half of telescoping: from every reachable state every disturbed start can be continued to
  a run after which the reports of the started process are not its last scrape less its first.
  */
  lemma DisturbedStartBreaksSum(events: seq<Event>, e: Event) returns (more: seq<Event>, g: nat)
    requires Exec(INIT, events).Some? && e.Start? && Enabled(Exec(INIT, events).value, e)
    requires Disturbed(Exec(INIT, events).value, e.id, e.port)
    ensures g == |Exec(INIT, events).value.procs|
    ensures Exec(INIT, events + [e] + more).Some? && Broken(Exec(INIT, events + [e] + more).value, g)
  {
    InitSound();
    ExecKeepsShape(INIT, events);
    var s := Exec(INIT, events).value;
    ExecThen(INIT, events, s, e);
    g := |s.procs|;
    var s1 := After(s, e);
    StartedUnscraped(s, e);
    hide Shape, Unscraped, Exec, Enabled, Harmful, OwnRow;
    if s1.flight.Some? {
      var t := FlightWritten(s1, g, e.id, e.port);
      var rest, u;
      if s.flight.value.snap.id == e.id {
        rest, u := SkewedBreaks(t, g, e.id);
      } else {
        var i :| 0 <= i < |s.pending| && (s.pending[i].id == e.id || s.pending[i].port == e.port) && !OwnRow(s.pending[i], e.id, e.port);
        rest, u := RowBreaks(t, g, e.id, e.port, i);
      }
      more := [WriteBack] + rest;
      ExecAppend(s1, [WriteBack], rest);
    } else {
      var i :| 0 <= i < |s.pending| && (s.pending[i].id == e.id || s.pending[i].port == e.port) && !OwnRow(s.pending[i], e.id, e.port);
      assert s1.(flight := None) == s1;
      var u;
      more, u := RowBreaks(s1, g, e.id, e.port, i);
    }
    ExecAppend(INIT, events + [e], more);
  }

  lemma StartedUnscraped(s: State, e: Event)
    requires Shape(s) && e.Start? && Enabled(s, e)
    ensures var s' := After(s, e);
            && Unscraped(s'.(flight := None), |s.procs|, e.id, e.port) && Shape(s')
            && s'.flight == s.flight && s'.pending == s.pending
            && (s'.flight.Some? ==> s'.flight.value.hit < |s.procs|)
  {
    StepKeepsShape(s, e);
    NoFlightShape(After(s, e));
    hide EntriesMatch, RowsFit, Disturbed, Harmful;
  }

  // ---------------------------------------------------------------- such starts are reachable

  function C(up: nat): Count { Count(up, 0) }

  function P(id: int, port: int, alive: bool, seen: Option<Count>): Proc {
    Proc(id, port, C(0), alive, C(0), seen, seen, false, false)
  }

  /** Inbound 1 has a baseline, inbound 2 does not; both are in the collector's snapshot. */
  function BothOutstanding(): State {
    State([P(1, 100, true, Some(C(0))), P(2, 200, true, None)], map[1 := Entry(0, Some(C(0))), 2 := Entry(1, None)],
          [Snap(1, 100, Some(C(0)), 0), Snap(2, 200, None, 1)], None)
  }

  const ROW := Snap(1, 100, None, 0)

  function OneStarted(): State { State([P(1, 100, true, None)], map[1 := Entry(0, None)], [], None) }

  function OnePending(): State { OneStarted().(pending := [ROW]) }

  function OneScraped(): State { OneStarted().(flight := Some(Flight(ROW, C(0), 0))) }

  function OneCollected(): State { State([P(1, 100, true, Some(C(0)))], map[1 := Entry(0, Some(C(0)))], [], None) }

  predicate Leads(s: State, e: Event, t: State) { Enabled(s, e) && After(s, e) == t }

  lemma StartsOne()
    ensures Leads(INIT, Start(1, 100), OneStarted())
  {
    assert Outstanding(INIT) == [];
  }

  lemma ListsOne()
    ensures Leads(OneStarted(), Snapshot([ROW]), OnePending())
  {
    SoleRow(OneStarted(), 0, 1, ROW);
  }

  lemma ScrapesOne()
    ensures Leads(OnePending(), Scrape(Some(0)), OneScraped())
  {
    assert [ROW][1..] == [];
  }

  lemma FirstCollection(f: Flight)
    requires f == Flight(ROW, C(0), 0)
    ensures Credit(P(1, 100, true, None), f) == P(1, 100, true, Some(C(0)))
  {
    CreditParts(P(1, 100, true, None), f);
    CreditKeepsRest(P(1, 100, true, None), f);
  }

  lemma StoresOne()
    ensures Leads(OneScraped(), WriteBack, OneCollected())
  {
    hide Credit, DeltaOf;
    FirstCollection(Flight(ROW, C(0), 0));
  }

  lemma StartsTwo()
    ensures Leads(OneCollected(), Start(2, 200), BothOutstanding().(pending := []))
  {
    assert Outstanding(OneCollected()) == [];
  }

  lemma ListsBoth()
    ensures Leads(BothOutstanding().(pending := []), Snapshot(BothOutstanding().pending), BothOutstanding())
  {
    var both := BothOutstanding();
    assert both.pending[0].id == 1 && both.pending[1].id == 2;
  }

  lemma {:induction false} Extend(events: seq<Event>, s: State, e: Event, t: State) returns (more: seq<Event>)
    requires Exec(INIT, events) == Some(s) && Leads(s, e, t)
    ensures Exec(INIT, more) == Some(t)
  {
    ExecThen(INIT, events, s, e);
    more := events + [e];
  }

  lemma ReachBothOutstanding() returns (events: seq<Event>)
    ensures Exec(INIT, events) == Some(BothOutstanding())
  {
    events := [];
    hide Leads, OneStarted, OnePending, OneScraped, OneCollected, BothOutstanding;
    StartsOne();
    events := Extend(events, INIT, Start(1, 100), OneStarted());
    ListsOne();
    events := Extend(events, OneStarted(), Snapshot([ROW]), OnePending());
    ScrapesOne();
    events := Extend(events, OnePending(), Scrape(Some(0)), OneScraped());
    StoresOne();
    events := Extend(events, OneScraped(), WriteBack, OneCollected());
    StartsTwo();
    events := Extend(events, OneCollected(), Start(2, 200), BothOutstanding().(pending := []));
    ListsBoth();
    events := Extend(events, BothOutstanding().(pending := []), Snapshot(BothOutstanding().pending), BothOutstanding());
  }

  /** Both are stopped while their rows are outstanding. */
  function BothStopped(): State {
    var b := BothOutstanding();
    b.(procs := [P(1, 100, false, Some(C(0))), P(2, 200, false, None)], entries := map[])
  }

  function OneStopped(): State {
    var b := BothOutstanding();
    b.(procs := [P(1, 100, false, Some(C(0))), b.procs[1]], entries := map[2 := Entry(1, None)])
  }

  lemma StopsBoth()
    ensures Leads(BothOutstanding(), Forget(1, true), OneStopped())
    ensures Leads(OneStopped(), Forget(2, true), BothStopped())
  {
  }

  lemma ReachBothStopped() returns (events: seq<Event>)
    ensures Exec(INIT, events) == Some(BothStopped())
  {
    hide Leads, BothOutstanding, OneStopped, BothStopped, Exec;
    events := ReachBothOutstanding();
    StopsBoth();
    events := Extend(events, BothOutstanding(), Forget(1, true), OneStopped());
    events := Extend(events, OneStopped(), Forget(2, true), BothStopped());
  }

  /**
  Two inbounds that restart during a collection, the second on the port the first one freed: such
  a run can be continued so that bytes are reported twice.
  */
  lemma SwappedPortsOverCount() returns (events: seq<Event>, g: nat)
    ensures Exec(INIT, events).Some?
    ensures var s := Exec(INIT, events).value; g < |s.procs| && !Within(s.procs[g].reported, s.procs[g].counter)
  {
    var before := ReachBothStopped();
    var s, e := BothStopped(), Start(2, 100);
    assert Outstanding(s) == s.pending && s.pending[0].id == 1 && s.pending[1].id == 2;
    assert Outstanding(s)[1].id == 2 && s.pending[0].port == 100;
    assert Enabled(s, e) && Harmful(s, e.id, e.port);
    hide Exec, Enabled, Harmful, BothStopped;
    var more;
    more, g := HarmfulStartOverCounts(before, e);
    events := before + [e] + more;
  }
}
