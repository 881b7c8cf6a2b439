/**
Who is online (internal/xray/process.go:305-469): a last-seen map, pruned on every refresh, must
agree with the whole history of activity; remote nodes add the client sets they report.
*/
module Online {
  import opened Text

  // ---------------------------------------------------------------- history

  /** One refresh: who had traffic, when, and for how long traffic counts. */
  datatype Tick = Tick(active: seq<string>, now: int, grace: int)

  /** The last tick with traffic of `who`, or -1. */
  function LastActive(history: seq<Tick>, who: string): (j: int)
    ensures -1 <= j < |history| && (j >= 0 ==> who in history[j].active)
    ensures forall k :: j < k < |history| ==> who !in history[k].active
  {
    if history == [] then -1
    else if who in history[|history| - 1].active then |history| - 1
    else LastActive(history[..|history| - 1], who)
  }

  /** At every refresh since the latest activity, that activity was within the refresh's grace. */
  ghost predicate Present(history: seq<Tick>, who: string) {
    var j := LastActive(history, who);
    j >= 0 && forall k :: j <= k < |history| ==> history[k].now - history[j].now < history[k].grace
  }

  /** The latest activity in the full history is within grace of the latest refresh. */
  predicate WithinGrace(history: seq<Tick>, who: string)
    requires history != []
  {
    var j, last := LastActive(history, who), history[|history| - 1];
    j >= 0 && last.now - history[j].now < last.grace
  }

  /** What the refreshes say of time: when they were, and their grace. */
  datatype Beat = Beat(now: int, grace: int)

  function Clock(history: seq<Tick>): seq<Beat> {
    seq(|history|, i requires 0 <= i < |history| => Beat(history[i].now, history[i].grace))
  }

  /** Activity that is within grace at the end was within grace at every refresh since. */
  ghost predicate Reliable(clock: seq<Beat>)
    requires clock != []
  {
    var last := clock[|clock| - 1];
    forall j, k :: 0 <= j <= k < |clock| && last.now - clock[j].now < last.grace ==>
      clock[k].now - clock[j].now < clock[k].grace
  }

  /** Time never goes back and the grace period is fixed. */
  ghost predicate Steady(clock: seq<Beat>) {
    forall i, j :: 0 <= i < j < |clock| ==> clock[i].now <= clock[j].now && clock[i].grace == clock[j].grace
  }

  lemma SteadyIsReliable(clock: seq<Beat>)
    requires clock != [] && Steady(clock)
    ensures Reliable(clock)
  {
    var n := |clock| - 1;
    assert forall k :: 0 <= k < n ==> clock[k].now <= clock[n].now && clock[k].grace == clock[n].grace;
  }

  /** On a reliable clock pruning loses nothing: present are those whose latest activity is within grace. */
  lemma PresentIsWithinGrace(history: seq<Tick>, who: string)
    requires history != [] && Reliable(Clock(history))
    ensures Present(history, who) <==> WithinGrace(history, who)
  {
    var j, clock := LastActive(history, who), Clock(history);
    if WithinGrace(history, who) {
      forall k | j <= k < |history| ensures history[k].now - history[j].now < history[k].grace {
        assert clock[k].now - clock[j].now < clock[k].grace;
      }
    }
  }

  /** A client with a single activity, at tick `j`. */
  function Solo(clock: seq<Beat>, j: nat, who: string): (history: seq<Tick>)
    ensures |history| == |clock| && Clock(history) == clock
  {
    seq(|clock|, i requires 0 <= i < |clock| => Tick(if i == j then [who] else [], clock[i].now, clock[i].grace))
  }

  lemma SoloIsLast(clock: seq<Beat>, j: nat, who: string)
    requires j < |clock|
    ensures LastActive(Solo(clock, j, who), who) == j
    ensures forall i :: 0 <= i < |clock| ==>
              Solo(clock, j, who)[i].now == clock[i].now && Solo(clock, j, who)[i].grace == clock[i].grace
  {
    hide LastActive;
    var history := Solo(clock, j, who);
    assert who in history[j].active && forall i :: 0 <= i < |history| && i != j ==> history[i].active == [];
  }

  /** On every other clock somebody is forgotten: a client with one activity, within grace now and pruned before. */
  lemma UnreliableClockForgets(clock: seq<Beat>, who: string) returns (history: seq<Tick>)
    requires clock != [] && !Reliable(clock)
    ensures Clock(history) == clock && |history| == |clock|
    ensures WithinGrace(history, who) && !Present(history, who)
  {
    hide LastActive, Solo, Clock;
    var last := clock[|clock| - 1];
    var j, k :| 0 <= j <= k < |clock| && last.now - clock[j].now < last.grace && clock[k].now - clock[j].now >= clock[k].grace;
    history := Solo(clock, j, who);
    SoloIsLast(clock, j, who);
    assert history[k].now - history[j].now >= history[k].grace;
  }

  /**
  For given times and graces, every pattern of activity shows exactly who is within grace of now, if
  and only if the clock is reliable; a clock that is steady, or goes back only a little, is.
  */
  lemma PresenceIsExact(clock: seq<Beat>)
    requires clock != []
    ensures (forall history: seq<Tick>, who: string ::
               Clock(history) == clock ==> (Present(history, who) <==> WithinGrace(history, who)))
            <==> Reliable(clock)
  {
    hide Present, Reliable, WithinGrace;
    if Reliable(clock) {
      forall history: seq<Tick>, who: string | Clock(history) == clock
        ensures Present(history, who) <==> WithinGrace(history, who)
      {
        assert |Clock(history)| == |history|;
        PresentIsWithinGrace(history, who);
      }
    } else {
      var history := UnreliableClockForgets(clock, "");
    }
  }

  // ---------------------------------------------------------------- the pruned map

  function Seen(last: map<string, int>, active: seq<string>, now: int): map<string, int> {
    map who | who in last.Keys + (set a | a in active) :: if who in active then now else last[who]
  }

  function Pruned(last: map<string, int>, now: int, grace: int): map<string, int> {
    map who | who in last && now - last[who] < grace :: last[who]
  }

  function Refreshed(last: map<string, int>, tick: Tick): map<string, int> {
    Pruned(Seen(last, tick.active, tick.now), tick.now, tick.grace)
  }

  /** The map agrees with the history: it holds who is present, with the time of the latest activity. */
  ghost predicate Agrees(last: map<string, int>, history: seq<Tick>) {
    forall who :: (who in last <==> Present(history, who))
               && (who in last ==> last[who] == history[LastActive(history, who)].now)
  }

  lemma PresentStep(history: seq<Tick>, tick: Tick, who: string)
    ensures who in tick.active ==>
              (Present(history + [tick], who) <==> 0 < tick.grace) && LastActive(history + [tick], who) == |history|
    ensures who !in tick.active ==> LastActive(history + [tick], who) == LastActive(history, who)
    ensures who !in tick.active ==>
              (Present(history + [tick], who)
               <==> Present(history, who) && tick.now - history[LastActive(history, who)].now < tick.grace)
  {
    var more := history + [tick];
    assert more[..|more| - 1] == history;
    var j := LastActive(more, who);
    assert forall k :: 0 <= k < |history| ==> more[k] == history[k];
    if who !in tick.active && j >= 0 {
      assert more[|history|] == tick;
    }
  }

  /** Every refresh keeps the map in agreement, whatever the times and graces. */
  lemma RefreshAgrees(last: map<string, int>, history: seq<Tick>, tick: Tick)
    requires Agrees(last, history)
    ensures Agrees(Refreshed(last, tick), history + [tick])
  {
    var next, more := Refreshed(last, tick), history + [tick];
    forall who
      ensures who in next <==> Present(more, who)
      ensures who in next ==> next[who] == more[LastActive(more, who)].now
    {
      PresentStep(history, tick, who);
    }
  }

  lemma NothingAgrees()
    ensures Agrees(map[], [])
  {
  }

  // ---------------------------------------------------------------- lists without duplicates

  ghost predicate Distinct(s: seq<string>) { forall i, j :: 0 <= i < j < |s| ==> s[i] != s[j] }

  ghost predicate Lists(s: seq<string>, members: set<string>) {
    Distinct(s) && forall who :: who in s <==> who in members
  }

  lemma ListsMore(s: seq<string>, members: set<string>, who: string)
    requires Lists(s, members) && who !in members
    ensures Lists(s + [who], members + {who})
  {
    forall i, j | 0 <= i < j < |s + [who]| ensures (s + [who])[i] != (s + [who])[j] {
      if j == |s| {
        assert s[i] in s;
      }
    }
  }

  lemma StillDistinct(list: seq<string>, more: seq<string>, seen: set<string>, i: nat)
    requires i < |more| && Distinct(list + more) && Lists(list + more[..i], seen)
    ensures more[i] !in seen
  {
    var all, prefix := list + more, list + more[..i];
    assert all[|list| + i] == more[i];
    forall k | 0 <= k < |prefix| ensures prefix[k] != more[i] {
      assert prefix[k] == all[k];
    }
  }

  /** Appends what is not in the list yet; nothing is left out of lists without duplicates. */
  method AddAll(list: seq<string>, seen: set<string>, more: seq<string>) returns (out: seq<string>, seen': set<string>)
    requires Lists(list, seen)
    ensures Lists(out, seen') && list <= out
    ensures forall who :: who in seen' <==> who in seen || who in more
    ensures Distinct(list + more) ==> out == list + more
  {
    hide Lists, Distinct;
    out, seen' := list, seen;
    for i := 0 to |more|
      invariant Lists(out, seen') && list <= out
      invariant forall who :: who in seen' <==> who in seen || who in more[..i]
      invariant Distinct(list + more) ==> out == list + more[..i]
    {
      assert more[..i + 1] == more[..i] + [more[i]];
      if Distinct(list + more) {
        StillDistinct(list, more, seen', i);
      }
      if more[i] in seen' {
        continue;
      }
      ListsMore(out, seen', more[i]);
      seen' := seen' + {more[i]};
      out := out + [more[i]];
    }
    assert more[..|more|] == more;
  }

  /** The first loop of `RefreshLocalOnline`. */
  method Touch(last: map<string, int>, active: seq<string>, now: int) returns (seen: map<string, int>)
    ensures seen == Seen(last, active, now)
  {
    seen := last;
    for i := 0 to |active|
      invariant seen == Seen(last, active[..i], now)
    {
      assert active[..i + 1] == active[..i] + [active[i]];
      seen := seen[active[i] := now];
    }
    assert active[..|active|] == active;
  }

  /** The second loop; the map is walked in any order, and entries are deleted on the way. */
  method Prune(seen: map<string, int>, now: int, grace: int) returns (next: map<string, int>, online: seq<string>)
    ensures next == Pruned(seen, now, grace) && Lists(online, next.Keys)
  {
    hide Lists, Distinct;
    next, online := seen, [];
    var left := next.Keys;
    ghost var listed: set<string> := {};
    EmptyList();
    while left != {}
      invariant left <= next.Keys && listed == next.Keys - left && Lists(online, listed)
      invariant forall who :: who in next <==> who in seen && (who in left || now - seen[who] < grace)
      invariant forall who :: who in next ==> next[who] == seen[who]
      decreases |left|
    {
      var who := PickOne(left);
      left := left - {who};
      if now - next[who] < grace {
        ListsMore(online, listed, who);
        online := online + [who];
        listed := listed + {who};
      } else {
        next := next - {who};
      }
    }
    assert listed == next.Keys;
  }

  lemma EmptyList()
    ensures Lists([], {})
  {
  }

  // ---------------------------------------------------------------- nodes

  /** What one node reports: the clients online at each panel of its subtree. */
  type Tree = map<string, seq<string>>

  function EmailsAt(tree: Tree, guid: string): seq<string> { if guid in tree then tree[guid] else [] }

  ghost predicate ReportedIn(tree: Tree, guids: set<string>, email: string) {
    exists guid :: guid in guids && email in EmailsAt(tree, guid)
  }

  ghost predicate Reported(trees: map<int, Tree>, nodes: set<int>, email: string) {
    exists node :: node in nodes && node in trees && ReportedIn(trees[node], trees[node].Keys, email)
  }

  ghost predicate ReportedAt(trees: map<int, Tree>, nodes: set<int>, guid: string, email: string) {
    exists node :: node in nodes && node in trees && email in EmailsAt(trees[node], guid)
  }

  lemma ReportedAtMore(trees: map<int, Tree>, nodes: set<int>, node: int)
    requires node in trees
    ensures forall guid, email :: ReportedAt(trees, nodes + {node}, guid, email)
              <==> ReportedAt(trees, nodes, guid, email) || email in EmailsAt(trees[node], guid)
  {
    forall guid, email | ReportedAt(trees, nodes, guid, email) || email in EmailsAt(trees[node], guid)
      ensures ReportedAt(trees, nodes + {node}, guid, email)
    {
      if email in EmailsAt(trees[node], guid) {
        assert node in nodes + {node};
      } else {
        var other :| other in nodes && other in trees && email in EmailsAt(trees[other], guid);
        assert other in nodes + {node};
      }
    }
  }

  class Presence {
    var localLastOnline: map<string, int>
    var onlineClients: seq<string>
    var localInboundLastActive: map<string, int>
    var localActiveInbounds: seq<string>
    var nodeOnlineTrees: map<int, Tree>
    ghost var clientHistory: seq<Tick>
    ghost var inboundHistory: seq<Tick>

    /** The lists hold exactly what the full histories say is present. */
    ghost predicate Valid()
      reads this
    {
      && Agrees(localLastOnline, clientHistory) && Lists(onlineClients, localLastOnline.Keys)
      && Agrees(localInboundLastActive, inboundHistory) && Lists(localActiveInbounds, localInboundLastActive.Keys)
    }

    constructor ()
      ensures Valid() && clientHistory == [] && inboundHistory == [] && nodeOnlineTrees == map[]
    {
      localLastOnline, localInboundLastActive := map[], map[];
      onlineClients, localActiveInbounds := [], [];
      nodeOnlineTrees := map[];
      clientHistory, inboundHistory := [], [];
      new;
      NothingAgrees();
    }

    /** `RefreshLocalOnline`. */
    method RefreshLocalOnline(activeEmails: seq<string>, activeInboundTags: seq<string>, now: int, graceMs: int)
      requires Valid()
      modifies this
      ensures Valid() && nodeOnlineTrees == old(nodeOnlineTrees)
      ensures clientHistory == old(clientHistory) + [Tick(activeEmails, now, graceMs)]
      ensures inboundHistory == old(inboundHistory) + [Tick(activeInboundTags, now, graceMs)]
      ensures forall email :: email in onlineClients <==> Present(clientHistory, email)
      ensures forall tag :: tag in localActiveInbounds <==> Present(inboundHistory, tag)
    {
      hide Present, Seen, Pruned, LastActive;
      var clients, inbounds := Tick(activeEmails, now, graceMs), Tick(activeInboundTags, now, graceMs);
      RefreshAgrees(localLastOnline, clientHistory, clients);
      RefreshAgrees(localInboundLastActive, inboundHistory, inbounds);
      localLastOnline := Touch(localLastOnline, activeEmails, now);
      localLastOnline, onlineClients := Prune(localLastOnline, now, graceMs);
      localInboundLastActive := Touch(localInboundLastActive, activeInboundTags, now);
      localInboundLastActive, localActiveInbounds := Prune(localInboundLastActive, now, graceMs);
      clientHistory := clientHistory + [clients];
      inboundHistory := inboundHistory + [inbounds];
    }

    /** `SetNodeOnlineTree`. */
    method SetNodeOnlineTree(node: int, tree: Tree)
      requires Valid()
      modifies this`nodeOnlineTrees
      ensures Valid() && nodeOnlineTrees == old(nodeOnlineTrees)[node := tree]
    {
      nodeOnlineTrees := nodeOnlineTrees[node := tree];
    }

    /** `ClearNodeOnlineClients`. */
    method ClearNodeOnlineClients(node: int)
      requires Valid()
      modifies this`nodeOnlineTrees
      ensures Valid() && nodeOnlineTrees == old(nodeOnlineTrees) - {node}
    {
      nodeOnlineTrees := nodeOnlineTrees - {node};
    }

    /** `GetOnlineClients`: local clients first, then every client a registered node reports. */
    method GetOnlineClients() returns (out: seq<string>)
      requires Valid()
      ensures Distinct(out) && onlineClients <= out
      ensures forall email :: email in out <==>
                Present(clientHistory, email) || Reported(nodeOnlineTrees, nodeOnlineTrees.Keys, email)
    {
      hide Present;
      EmptyList();
      if nodeOnlineTrees == map[] {
        return onlineClients;
      }
      var seen: set<string>;
      out, seen := AddAll([], {}, onlineClients);
      assert [] + onlineClients == onlineClients;
      var left := nodeOnlineTrees.Keys;
      while left != {}
        invariant left <= nodeOnlineTrees.Keys && Lists(out, seen) && onlineClients <= out
        invariant forall email :: email in seen <==>
                    email in onlineClients || Reported(nodeOnlineTrees, nodeOnlineTrees.Keys - left, email)
        decreases |left|
      {
        var node := PickOne(left);
        out, seen := AddTree(out, seen, nodeOnlineTrees[node]);
        assert nodeOnlineTrees.Keys - (left - {node}) == (nodeOnlineTrees.Keys - left) + {node};
        left := left - {node};
      }
      assert nodeOnlineTrees.Keys - left == nodeOnlineTrees.Keys;
    }

    /** `GetMergedNodeTrees`: per panel, every client some node reports there, once; empty sets left out. */
    method GetMergedNodeTrees() returns (out: Tree)
      ensures forall guid :: guid in out <==>
                guid != "" && exists email :: ReportedAt(nodeOnlineTrees, nodeOnlineTrees.Keys, guid, email)
      ensures forall guid :: guid in out ==>
                Distinct(out[guid])
                && forall email :: email in out[guid] <==> ReportedAt(nodeOnlineTrees, nodeOnlineTrees.Keys, guid, email)
    {
      hide Distinct, Lists;
      out := map[];
      var seen: map<string, set<string>> := map[];
      var left := nodeOnlineTrees.Keys;
      while left != {}
        invariant left <= nodeOnlineTrees.Keys && Merged(out, seen)
        invariant forall guid, email :: guid in out && email in seen[guid] <==>
                    guid != "" && ReportedAt(nodeOnlineTrees, nodeOnlineTrees.Keys - left, guid, email)
        decreases |left|
      {
        var node := PickOne(left);
        out, seen := MergeTree(out, seen, nodeOnlineTrees[node]);
        ReportedAtMore(nodeOnlineTrees, nodeOnlineTrees.Keys - left, node);
        assert nodeOnlineTrees.Keys - (left - {node}) == (nodeOnlineTrees.Keys - left) + {node};
        left := left - {node};
      }
      assert nodeOnlineTrees.Keys - left == nodeOnlineTrees.Keys;
      MergedLists(out, seen);
    }
  }

  /** Non-empty lists without duplicates, and the sets that watch over them. */
  ghost predicate Merged(out: Tree, seen: map<string, set<string>>) {
    && out.Keys == seen.Keys
    && forall guid :: guid in out ==> guid != "" && seen[guid] != {} && Lists(out[guid], seen[guid])
  }

  ghost predicate In(seen: map<string, set<string>>, guid: string, email: string) {
    guid in seen && email in seen[guid]
  }

  lemma MergedLists(out: Tree, seen: map<string, set<string>>)
    requires Merged(out, seen)
    ensures forall guid :: guid in out ==> Distinct(out[guid]) && exists email :: email in seen[guid]
    ensures forall guid, email :: guid in out ==> (email in out[guid] <==> email in seen[guid])
  {
    forall guid | guid in out ensures Distinct(out[guid]) && exists email :: email in seen[guid] {
      var email :| email in seen[guid];
    }
  }

  /** Adds one node's subtree, panel by panel, in any order. */
  method MergeTree(out: Tree, seen: map<string, set<string>>, tree: Tree)
    returns (out': Tree, seen': map<string, set<string>>)
    requires Merged(out, seen)
    ensures Merged(out', seen')
    ensures forall guid, email :: In(seen', guid, email) <==>
              In(seen, guid, email) || (guid != "" && email in EmailsAt(tree, guid))
  {
    hide Distinct, Lists;
    out', seen' := out, seen;
    var left := tree.Keys;
    while left != {}
      invariant left <= tree.Keys && Merged(out', seen')
      invariant forall guid, email :: In(seen', guid, email) <==>
                  In(seen, guid, email) || (guid != "" && guid !in left && email in EmailsAt(tree, guid))
      decreases |left|
    {
      var guid := PickOne(left);
      left := left - {guid};
      var emails := tree[guid];
      if guid == "" || emails == [] {
        continue;
      }
      out', seen' := MergePanel(out', seen', guid, emails);
    }
  }

  /** The clients of one panel. */
  method MergePanel(out: Tree, seen: map<string, set<string>>, guid: string, emails: seq<string>)
    returns (out': Tree, seen': map<string, set<string>>)
    requires Merged(out, seen) && guid != "" && emails != []
    ensures Merged(out', seen')
    ensures forall g, email :: In(seen', g, email) <==> In(seen, g, email) || (g == guid && email in emails)
  {
    hide Distinct, Lists;
    EmptyList();
    var list, dedup := if guid in out then out[guid] else [], if guid in seen then seen[guid] else {};
    list, dedup := AddAll(list, dedup, emails);
    assert emails[0] in dedup;
    out' := out[guid := list];
    seen' := seen[guid := dedup];
  }

  /** Adds the clients of one node's subtree; the subtree is walked in any order. */
  method AddTree(list: seq<string>, seen: set<string>, tree: Tree) returns (out: seq<string>, seen': set<string>)
    requires Lists(list, seen)
    ensures Lists(out, seen') && list <= out
    ensures forall email :: email in seen' <==> email in seen || ReportedIn(tree, tree.Keys, email)
  {
    out, seen' := list, seen;
    var left := tree.Keys;
    while left != {}
      invariant left <= tree.Keys && Lists(out, seen') && list <= out
      invariant forall email :: email in seen' <==> email in seen || ReportedIn(tree, tree.Keys - left, email)
      decreases |left|
    {
      var guid := PickOne(left);
      out, seen' := AddAll(out, seen', tree[guid]);
      assert tree.Keys - (left - {guid}) == (tree.Keys - left) + {guid};
      left := left - {guid};
    }
    assert tree.Keys - left == tree.Keys;
  }
}
