/**
Traffic of the core (internal/xray/api.go:561-598, 657-699): the core only ever reports running
totals, so the panel remembers the last value of every counter and books the difference, across
polls, restarts of the core, and restarts after which it forgets what it knew
(internal/web/service/xray.go:928). Counter names are taken as already matched.
*/
module StatsDelta {
  import opened Text

  /** A counter as the two name patterns split it; `Other` matches neither. */
  datatype Counter = Link(inbound: bool, tag: string, down: bool) | User(email: string, down: bool) | Other(name: string)

  /** A value read from a core of some generation, or the forgetting of all last values. */
  datatype Event = Saw(counter: Counter, gen: nat, value: int) | Forgot

  // ---------------------------------------------------------------- accounting over a history

  /** The last value the panel remembers of a counter. */
  function LastOf(history: seq<Event>, c: Counter): Option<int> {
    if history == [] then None
    else
      match history[|history| - 1]
      case Forgot => None
      case Saw(d, _, v) => if d == c then Some(v) else LastOf(history[..|history| - 1], c)
  }

  /** What is booked when `v` is seen: nothing the first time, nothing when the counter went down. */
  function Delta(last: Option<int>, v: int): int { if last.None? || v < last.value then 0 else v - last.value }

  /** All that was booked for a counter of one generation of the core. */
  function Booked(history: seq<Event>, c: Counter, gen: nat): int {
    if history == [] then 0
    else
      var before, e := history[..|history| - 1], history[|history| - 1];
      Booked(before, c, gen)
      + if e.Saw? && e.counter == c && e.gen == gen then Delta(LastOf(before, c), e.value) else 0
  }

  /** The highest value a counter of one generation was seen at. */
  function Total(history: seq<Event>, c: Counter, gen: nat): int {
    if history == [] then 0
    else
      var e := history[|history| - 1];
      if e.Saw? && e.counter == c && e.gen == gen then e.value else Total(history[..|history| - 1], c, gen)
  }

  /** The generation a counter was last seen in. */
  function GenOf(history: seq<Event>, c: Counter): nat {
    if history == [] then 0
    else
      var e := history[|history| - 1];
      if e.Saw? && e.counter == c then e.gen else GenOf(history[..|history| - 1], c)
  }

  /** Counters start at 0 in every generation and never go down within one; generations follow each other. */
  ghost predicate Honest(history: seq<Event>) {
    history == [] ||
    (var before, e := history[..|history| - 1], history[|history| - 1];
     && Honest(before)
     && (e.Saw? ==> e.gen >= GenOf(before, e.counter) && e.value >= 0 && e.value >= Total(before, e.counter, e.gen)))
  }

  /** What is remembered is the last total of the last generation. */
  lemma {:induction false} RememberedIsTotal(history: seq<Event>, c: Counter)
    requires Honest(history)
    ensures var last := LastOf(history, c);
            last.Some? ==> last.value >= 0 && last.value == Total(history, c, GenOf(history, c))
  {
    if history != [] {
      RememberedIsTotal(history[..|history| - 1], c);
    }
  }

  lemma {:induction false} LaterGenerationsAreEmpty(history: seq<Event>, c: Counter, gen: nat)
    requires Honest(history) && gen > GenOf(history, c)
    ensures Booked(history, c, gen) == 0 && Total(history, c, gen) == 0
  {
    if history != [] {
      var before, e := history[..|history| - 1], history[|history| - 1];
      assert gen > GenOf(before, c);
      LaterGenerationsAreEmpty(before, c, gen);
    }
  }

  /** Nothing is counted twice: what is booked for a generation of the core is at most its counter. */
  lemma {:induction false} NeverOverCounted(history: seq<Event>, c: Counter, gen: nat)
    requires Honest(history)
    ensures 0 <= Booked(history, c, gen) <= Total(history, c, gen)
  {
    if history != [] {
      var before, e := history[..|history| - 1], history[|history| - 1];
      NeverOverCounted(before, c, gen);
      if e.Saw? && e.counter == c && e.gen == gen {
        RememberedIsTotal(before, c);
        if gen > GenOf(before, c) {
          LaterGenerationsAreEmpty(before, c, gen);
        }
      }
    }
  }

  /** From `k` on nothing is forgotten and the counter belongs to one generation of the core. */
  ghost predicate OneStretch(history: seq<Event>, k: nat, c: Counter, gen: nat) {
    forall i :: k <= i < |history| ==> history[i].Saw? && (history[i].counter == c ==> history[i].gen == gen)
  }

  /**
  For every counter, from any sighting of it on: as long as nothing is forgotten and the core is not
  restarted, what is booked is the last value less the sighted one. The first sighting, or the first
  one after everything was forgotten, books nothing itself.
  */
  lemma {:induction false} BookedTelescopes(history: seq<Event>, k: nat, c: Counter, gen: nat, first: int)
    requires Honest(history) && k < |history| && history[k] == Saw(c, gen, first) && OneStretch(history, k, c, gen)
    ensures LastOf(history, c).Some?
    ensures Booked(history, c, gen) == Booked(history[..k + 1], c, gen) + LastOf(history, c).value - first
    ensures LastOf(history[..k], c).None? ==> Booked(history[..k + 1], c, gen) == Booked(history[..k], c, gen)
    ensures GenOf(history, c) == gen
  {
    var n := |history| - 1;
    var before := history[..n];
    if k == n {
      assert history[..k + 1] == history;
    } else {
      assert OneStretch(before, k, c, gen) && before[..k + 1] == history[..k + 1] && before[..k] == history[..k];
      BookedTelescopes(before, k, c, gen, first);
      RememberedIsTotal(before, c);
      assert history[..k + 1][..k] == history[..k];
    }
  }

  // ---------------------------------------------------------------- the result maps

  datatype Traffic = Traffic(isInbound: bool, up: int, down: int)

  type Deltas = seq<(Counter, int)>

  /** `processTraffic`; the API inbound's own traffic is not counted. */
  function WithTraffic(tags: map<string, Traffic>, inbound: bool, tag: string, down: bool, value: int): map<string, Traffic> {
    if tag == "api" then tags
    else
      var t := if tag in tags then tags[tag] else Traffic(inbound, 0, 0);
      tags[tag := if down then t.(down := value) else t.(up := value)]
  }

  /** `processClientTraffic`: upload and download of an email. */
  function WithClient(clients: map<string, (int, int)>, email: string, down: bool, value: int): map<string, (int, int)> {
    var t := if email in clients then clients[email] else (0, 0);
    clients[email := if down then (t.0, value) else (value, t.1)]
  }

  function Tags(deltas: Deltas): map<string, Traffic> {
    if deltas == [] then map[]
    else
      var before, d := Tags(deltas[..|deltas| - 1]), deltas[|deltas| - 1];
      if d.0.Link? then WithTraffic(before, d.0.inbound, d.0.tag, d.0.down, d.1) else before
  }

  function Clients(deltas: Deltas): map<string, (int, int)> {
    if deltas == [] then map[]
    else
      var before, d := Clients(deltas[..|deltas| - 1]), deltas[|deltas| - 1];
      if d.0.User? then WithClient(before, d.0.email, d.0.down, d.1) else before
  }

  function SumOf(deltas: Deltas, c: Counter): int {
    if deltas == [] then 0
    else SumOf(deltas[..|deltas| - 1], c) + if deltas[|deltas| - 1].0 == c then deltas[|deltas| - 1].1 else 0
  }

  /** The last difference of a direction of a tag, 0 if there is none. */
  function LastDelta(deltas: Deltas, tag: string, down: bool): int {
    if deltas == [] then 0
    else
      var d := deltas[|deltas| - 1];
      if d.0.Link? && d.0.tag == tag && d.0.down == down then d.1 else LastDelta(deltas[..|deltas| - 1], tag, down)
  }

  /** A tag's entry holds the last difference of each direction, from whichever side reported it. */
  lemma {:induction false} TagHoldsLastDelta(deltas: Deltas, tag: string)
    requires tag != "api"
    ensures tag in Tags(deltas) <==> exists i :: 0 <= i < |deltas| && deltas[i].0.Link? && deltas[i].0.tag == tag
    ensures tag in Tags(deltas) ==>
              Tags(deltas)[tag].down == LastDelta(deltas, tag, true) && Tags(deltas)[tag].up == LastDelta(deltas, tag, false)
    ensures tag !in Tags(deltas) ==> LastDelta(deltas, tag, true) == 0 && LastDelta(deltas, tag, false) == 0
  {
    if deltas != [] {
      var n := |deltas| - 1;
      TagHoldsLastDelta(deltas[..n], tag);
      assert forall i :: 0 <= i < n ==> deltas[..n][i] == deltas[i];
    }
  }

  /** The side that reported a tag first. */
  function FirstSide(deltas: Deltas, tag: string): Option<bool> {
    if deltas == [] then None
    else if deltas[0].0.Link? && deltas[0].0.tag == tag then Some(deltas[0].0.inbound)
    else FirstSide(deltas[1..], tag)
  }

  lemma {:induction false} FirstSideStays(deltas: Deltas, d: (Counter, int), tag: string)
    ensures FirstSide(deltas + [d], tag)
            == if FirstSide(deltas, tag).Some? then FirstSide(deltas, tag)
               else if d.0.Link? && d.0.tag == tag then Some(d.0.inbound) else None
  {
    if deltas == [] {
      assert (deltas + [d])[1..] == [];
    } else {
      FirstSideStays(deltas[1..], d, tag);
      assert (deltas + [d])[1..] == deltas[1..] + [d];
    }
  }

  /** A tag counts as an inbound's or an outbound's as it was first reported; the tag `api` is never counted. */
  lemma {:induction false} TagIsOfFirstSide(deltas: Deltas, tag: string)
    ensures "api" !in Tags(deltas)
    ensures tag != "api" ==> (tag in Tags(deltas) <==> FirstSide(deltas, tag).Some?)
    ensures tag in Tags(deltas) ==> FirstSide(deltas, tag) == Some(Tags(deltas)[tag].isInbound)
  {
    if deltas != [] {
      var n := |deltas| - 1;
      TagIsOfFirstSide(deltas[..n], tag);
      FirstSideStays(deltas[..n], deltas[n], tag);
      assert deltas[..n] + [deltas[n]] == deltas;
    }
  }

  /** The last difference of a direction of a client, 0 if there is none. */
  function LastClientDelta(deltas: Deltas, email: string, down: bool): int {
    if deltas == [] then 0
    else
      var d := deltas[|deltas| - 1];
      if d.0 == User(email, down) then d.1 else LastClientDelta(deltas[..|deltas| - 1], email, down)
  }

  /** A client's entry holds the upload first and the download second, each as last reported. */
  lemma {:induction false} ClientHoldsLastDelta(deltas: Deltas, email: string)
    ensures email in Clients(deltas) <==> exists i :: 0 <= i < |deltas| && deltas[i].0.User? && deltas[i].0.email == email
    ensures email in Clients(deltas) ==>
              Clients(deltas)[email] == (LastClientDelta(deltas, email, false), LastClientDelta(deltas, email, true))
    ensures email !in Clients(deltas) ==> LastClientDelta(deltas, email, false) == LastClientDelta(deltas, email, true) == 0
  {
    if deltas != [] {
      var n := |deltas| - 1;
      ClientHoldsLastDelta(deltas[..n], email);
      assert forall i :: 0 <= i < n ==> deltas[..n][i] == deltas[i];
    }
  }

  predicate IsOf(c: Counter, tag: string, down: bool) { c.Link? && c.tag == tag && c.down == down }

  /** What both sides of a tag carried in one direction. */
  function SumOfTag(deltas: Deltas, tag: string, down: bool): int {
    SumOf(deltas, Link(true, tag, down)) + SumOf(deltas, Link(false, tag, down))
  }

  lemma {:induction false} NothingCarried(deltas: Deltas, tag: string, down: bool)
    requires forall i :: 0 <= i < |deltas| ==> deltas[i].1 >= 0
    ensures SumOfTag(deltas, tag, down) >= 0
    ensures SumOfTag(deltas, tag, down) == 0 <==>
              forall i :: 0 <= i < |deltas| && IsOf(deltas[i].0, tag, down) ==> deltas[i].1 == 0
  {
    if deltas != [] {
      var n := |deltas| - 1;
      NothingCarried(deltas[..n], tag, down);
      assert forall i :: 0 <= i < n ==> deltas[..n][i] == deltas[i];
    }
  }

  lemma {:induction false} LastDeltaIsSum(deltas: Deltas, tag: string, down: bool)
    requires forall i :: 0 <= i < |deltas| ==> deltas[i].1 >= 0
    ensures LastDelta(deltas, tag, down) == SumOfTag(deltas, tag, down) <==>
              forall i, j :: 0 <= i < j < |deltas| && IsOf(deltas[i].0, tag, down) && IsOf(deltas[j].0, tag, down) ==>
                deltas[i].1 == 0
  {
    if deltas != [] {
      var n := |deltas| - 1;
      assert forall i :: 0 <= i < n ==> deltas[..n][i] == deltas[i];
      if IsOf(deltas[n].0, tag, down) {
        NothingCarried(deltas[..n], tag, down);
      } else {
        LastDeltaIsSum(deltas[..n], tag, down);
      }
    }
  }

  /**
  An inbound and an outbound with one tag share an entry. In one answer the entry holds the traffic of
  both in a direction if and only if every difference but the last one of that tag and direction is 0;
  otherwise traffic is lost.
  */
  lemma SharedTagLosesTraffic(deltas: Deltas, tag: string, down: bool)
    requires tag in Tags(deltas) && tag != "api" && forall i :: 0 <= i < |deltas| ==> deltas[i].1 >= 0
    ensures (if down then Tags(deltas)[tag].down else Tags(deltas)[tag].up) == SumOfTag(deltas, tag, down) <==>
              forall i, j :: 0 <= i < j < |deltas| && IsOf(deltas[i].0, tag, down) && IsOf(deltas[j].0, tag, down) ==>
                deltas[i].1 == 0
  {
    TagHoldsLastDelta(deltas, tag);
    LastDeltaIsSum(deltas, tag, down);
  }

  // ---------------------------------------------------------------- the code

  class XrayAPI {
    var statsLastValues: map<Counter, int>
    ghost var history: seq<Event>

    /** The map remembers the last value of every counter. */
    ghost predicate Valid()
      reads this
    {
      forall c :: LastOf(history, c) == if c in statsLastValues then Some(statsLastValues[c]) else None
    }

    constructor ()
      ensures Valid() && history == []
    {
      statsLastValues, history := map[], [];
    }

    /** `StatsLastValues = nil` on a restart. */
    method Forget()
      requires Valid()
      modifies this
      ensures Valid() && history == old(history) + [Forgot]
    {
      statsLastValues := map[];
      history := history + [Forgot];
    }

    /** One counter of an answer: remembered, and the difference if there is one to book. */
    method Book(c: Counter, v: int, ghost gen: nat) returns (value: Option<int>)
      requires Valid()
      modifies this
      ensures Valid() && history == old(history) + [Saw(c, gen, v)]
      ensures forall d :: Booked(history, d, gen) ==
                Booked(old(history), d, gen) + if value.Some? && d == c then value.value else 0
      ensures value.Some? ==> value.value >= 0
    {
      ghost var before := history;
      history := history + [Saw(c, gen, v)];
      assert history[..|history| - 1] == before;
      if c !in statsLastValues || v < statsLastValues[c] {
        value := None;
      } else {
        value := Some(v - statsLastValues[c]);
      }
      statsLastValues := statsLastValues[c := v];
    }

    /** The loop of `GetTraffic` over one answer of a core of generation `gen`. */
    method GetTraffic(stats: seq<(Counter, int)>, ghost gen: nat)
      returns (tags: map<string, Traffic>, clients: map<string, (int, int)>, ghost deltas: Deltas)
      requires Valid()
      modifies this
      ensures Valid()
      ensures history == old(history) + seq(|stats|, i requires 0 <= i < |stats| => Saw(stats[i].0, gen, stats[i].1))
      ensures tags == Tags(deltas) && clients == Clients(deltas) && forall i :: 0 <= i < |deltas| ==> deltas[i].1 >= 0
      ensures forall c :: Booked(history, c, gen) == Booked(old(history), c, gen) + SumOf(deltas, c)
    {
      hide Valid, Booked, WithTraffic, WithClient;
      tags, clients, deltas := map[], map[], [];
      for i := 0 to |stats|
        invariant Valid() && tags == Tags(deltas) && clients == Clients(deltas)
        invariant forall k :: 0 <= k < |deltas| ==> deltas[k].1 >= 0
        invariant history == old(history) + seq(i, k requires 0 <= k < i => Saw(stats[k].0, gen, stats[k].1))
        invariant forall c :: Booked(history, c, gen) == Booked(old(history), c, gen) + SumOf(deltas, c)
      {
        var (c, v) := stats[i];
        var value := Book(c, v, gen);
        if value.None? {
          continue;
        }
        match c {
          case Link(inbound, tag, down) => tags := WithTraffic(tags, inbound, tag, down, value.value);
          case User(email, down) => clients := WithClient(clients, email, down, value.value);
          case Other(_) =>
        }
        ghost var more := deltas + [(c, value.value)];
        assert more[..|more| - 1] == deltas;
        deltas := more;
      }
    }
  }
}
