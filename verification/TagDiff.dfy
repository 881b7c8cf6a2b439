/**
The shape shared by `diffInbounds` and `diffOutbounds` (internal/xray/hot_diff.go): two lists
of handlers addressed by tag, the removals and additions that lead from one to the other, and
a handler table on which a removal fails when the tag is missing and an addition fails when
it is taken, the two answers internal/xray/api.go:376-396 recognises.
*/
module TagDiff {
  import opened Text

  datatype Entry<T> = Entry(tag: string, content: T)

  /** Handlers the API can address: no empty tag, no tag twice. */
  predicate Addressable<T>(es: seq<Entry<T>>) {
    && (forall i :: 0 <= i < |es| ==> es[i].tag != "")
    && (forall i, j :: 0 <= i < j < |es| ==> es[i].tag != es[j].tag)
  }

  /** The table a list of handlers builds, entry by entry. */
  function Table<T>(es: seq<Entry<T>>): map<string, T> {
    if es == [] then map[]
    else var last := es[|es| - 1]; Table(es[..|es| - 1])[last.tag := last.content]
  }

  predicate Unchanged<T(==)>(e: Entry<T>, table: map<string, T>) {
    e.tag in table && table[e.tag] == e.content
  }

  /** Tags to remove: old handlers that are gone or have other content, in order. */
  function Removed<T(==)>(olds: seq<Entry<T>>, news: map<string, T>): seq<string> {
    if olds == [] then []
    else
      var last := olds[|olds| - 1];
      Removed(olds[..|olds| - 1], news) + (if Unchanged(last, news) then [] else [last.tag])
  }

  /** Old tags that come back with new content. */
  function Replaced<T(==)>(olds: seq<Entry<T>>, news: map<string, T>): seq<Entry<T>> {
    if olds == [] then []
    else
      var last := olds[|olds| - 1];
      Replaced(olds[..|olds| - 1], news) +
      (if last.tag in news && !Unchanged(last, news) then [Entry(last.tag, news[last.tag])] else [])
  }

  /** Handlers whose tag did not exist before. */
  function Fresh<T>(news: seq<Entry<T>>, olds: map<string, T>): seq<Entry<T>> {
    if news == [] then []
    else
      var last := news[|news| - 1];
      Fresh(news[..|news| - 1], olds) + (if last.tag in olds then [] else [last])
  }

  function Added<T(==)>(olds: seq<Entry<T>>, news: seq<Entry<T>>): seq<Entry<T>> {
    Replaced(olds, Table(news)) + Fresh(news, Table(olds))
  }

  /** Removing tags one by one; None is the "not found" answer. */
  function RemoveAll<T>(table: map<string, T>, tags: seq<string>): Option<map<string, T>> {
    if tags == [] then Some(table)
    else
      match RemoveAll(table, tags[..|tags| - 1])
      case None => None
      case Some(left) => if tags[|tags| - 1] in left then Some(left - {tags[|tags| - 1]}) else None
  }

  /** Adding handlers one by one; None is the "existing tag" answer. */
  function AddAll<T>(table: map<string, T>, es: seq<Entry<T>>): Option<map<string, T>> {
    if es == [] then Some(table)
    else
      var last := es[|es| - 1];
      match AddAll(table, es[..|es| - 1])
      case None => None
      case Some(grown) => if last.tag in grown then None else Some(grown[last.tag := last.content])
  }

  lemma NoneTaken<T>(news: map<string, T>, olds: map<string, T>)
    ensures Removed([], news) == [] && Replaced([], news) == [] && Fresh([], olds) == []
  {}

  /** How the three lists grow when a loop takes one more handler. */
  lemma TakeOne<T>(es: seq<Entry<T>>, e: Entry<T>, table: map<string, T>)
    ensures Table(es + [e]) == Table(es)[e.tag := e.content]
    ensures Removed(es + [e], table) == Removed(es, table) + (if Unchanged(e, table) then [] else [e.tag])
    ensures Replaced(es + [e], table)
            == Replaced(es, table) + (if e.tag in table && !Unchanged(e, table) then [Entry(e.tag, table[e.tag])] else [])
    ensures Fresh(es + [e], table) == Fresh(es, table) + (if e.tag in table then [] else [e])
  {
    assert (es + [e])[..|es|] == es;
  }

  // ---------------------------------------------------------------- tables

  lemma {:induction false} TableHolds<T>(es: seq<Entry<T>>)
    ensures forall i :: 0 <= i < |es| ==> es[i].tag in Table(es)
    ensures forall t :: t in Table(es) ==> exists i :: 0 <= i < |es| && es[i].tag == t && Table(es)[t] == es[i].content
    ensures Addressable(es) ==> forall i :: 0 <= i < |es| ==> Table(es)[es[i].tag] == es[i].content
  {
    if es != [] {
      TableHolds(es[..|es| - 1]);
    }
  }

  lemma LastTagIsNew<T>(es: seq<Entry<T>>)
    requires es != [] && Addressable(es)
    ensures var init, last := es[..|es| - 1], es[|es| - 1];
            Addressable(init) && last.tag != "" && last.tag !in Table(init)
  {
    TableHolds(es[..|es| - 1]);
  }

  lemma AppendNew<T>(es: seq<Entry<T>>, e: Entry<T>)
    requires Addressable(es) && e.tag != "" && e.tag !in Table(es)
    ensures Addressable(es + [e]) && Table(es + [e]) == Table(es)[e.tag := e.content]
  {
    TableHolds(es);
    assert (es + [e])[..|es|] == es;
  }

  lemma {:induction false} Concatenate<T>(a: seq<Entry<T>>, b: seq<Entry<T>>)
    requires Addressable(a) && Addressable(b) && Table(a).Keys !! Table(b).Keys
    ensures Addressable(a + b) && Table(a + b) == Table(a) + Table(b)
  {
    if b == [] {
      assert a + b == a;
    } else {
      var init, last := b[..|b| - 1], b[|b| - 1];
      LastTagIsNew(b);
      Concatenate(a, init);
      assert last.tag in Table(b) && Table(b) == Table(init)[last.tag := last.content];
      hide Table, Addressable;
      AppendNew(a + init, last);
      assert a + b == a + init + [last];
    }
  }

  predicate NoRepeats(tags: seq<string>) { forall i, j :: 0 <= i < j < |tags| ==> tags[i] != tags[j] }

  lemma {:induction false} RemoveAllWorks<T>(table: map<string, T>, tags: seq<string>)
    requires NoRepeats(tags) && forall t :: t in tags ==> t in table
    ensures RemoveAll(table, tags) == Some(map t | t in table && t !in tags :: table[t])
  {
    if tags != [] {
      var init, last := tags[..|tags| - 1], tags[|tags| - 1];
      RemoveAllWorks(table, init);
      assert tags == init + [last];
      assert (map t | t in table && t !in init :: table[t]) - {last} == map t | t in table && t !in tags :: table[t];
    } else {
      assert table == map t | t in table && t !in tags :: table[t];
    }
  }

  lemma {:induction false} AddAllWorks<T>(table: map<string, T>, es: seq<Entry<T>>)
    requires Addressable(es) && Table(es).Keys !! table.Keys
    ensures AddAll(table, es) == Some(table + Table(es))
  {
    if es != [] {
      var last := es[|es| - 1];
      LastTagIsNew(es);
      assert last.tag in Table(es);
      AddAllWorks(table, es[..|es| - 1]);
      assert (table + Table(es[..|es| - 1]))[last.tag := last.content] == table + Table(es);
    } else {
      assert table + Table(es) == table;
    }
  }

  // ---------------------------------------------------------------- which tags the operations name

  /** A tag is removed exactly when its old handler is gone or changed, and only once. */
  lemma {:induction false} RemovedExactly<T>(olds: seq<Entry<T>>, news: map<string, T>)
    requires Addressable(olds)
    ensures forall t :: t in Removed(olds, news) <==>
                        t in Table(olds) && !Unchanged(Entry(t, Table(olds)[t]), news)
    ensures NoRepeats(Removed(olds, news))
  {
    if olds != [] {
      var init, last := olds[..|olds| - 1], olds[|olds| - 1];
      LastTagIsNew(olds);
      RemovedExactly(init, news);
      assert last.tag !in Removed(init, news);
    }
  }

  lemma {:induction false} ReplacedExactly<T>(olds: seq<Entry<T>>, news: map<string, T>)
    requires Addressable(olds)
    ensures Addressable(Replaced(olds, news))
    ensures Table(Replaced(olds, news)) == Changes(Table(olds), news)
  {
    if olds != [] {
      var init, last := olds[..|olds| - 1], olds[|olds| - 1];
      LastTagIsNew(olds);
      ReplacedExactly(init, news);
      ReplacedStep(Replaced(init, news), Table(init), last, news);
      assert Table(olds) == Table(init)[last.tag := last.content];
    }
  }

  /** The new contents of the tags both tables have with different contents. */
  function Changes<T(==)>(table: map<string, T>, news: map<string, T>): map<string, T> {
    map t | t in table && t in news && news[t] != table[t] :: news[t]
  }

  lemma OneMoreChange<T>(table: map<string, T>, tag: string, content: T, news: map<string, T>)
    requires tag !in table
    ensures Changes(table[tag := content], news) ==
            if tag in news && news[tag] != content then Changes(table, news)[tag := news[tag]] else Changes(table, news)
    ensures tag !in Changes(table, news)
  {
  }

  lemma ReplacedStep<T>(before: seq<Entry<T>>, table: map<string, T>, last: Entry<T>, news: map<string, T>)
    requires Addressable(before) && Table(before) == Changes(table, news)
    requires last.tag != "" && last.tag !in table
    ensures var changed := last.tag in news && !Unchanged(last, news);
            var after := before + (if changed then [Entry(last.tag, news[last.tag])] else []);
            Addressable(after) && Table(after) == Changes(table[last.tag := last.content], news)
  {
    hide Changes, Addressable, Table;
    OneMoreChange(table, last.tag, last.content, news);
    if last.tag in news && !Unchanged(last, news) {
      AppendNew(before, Entry(last.tag, news[last.tag]));
    } else {
      assert before + [] == before;
    }
  }

  lemma {:induction false} FreshExactly<T>(news: seq<Entry<T>>, olds: map<string, T>)
    requires Addressable(news)
    ensures Addressable(Fresh(news, olds))
    ensures Table(Fresh(news, olds)) == map t | t in Table(news) && t !in olds :: Table(news)[t]
  {
    if news != [] {
      var init, last := news[..|news| - 1], news[|news| - 1];
      LastTagIsNew(news);
      FreshExactly(init, olds);
      FreshStep(Fresh(init, olds), Table(init), last, olds);
      assert Table(news) == Table(init)[last.tag := last.content];
    }
  }

  lemma FreshStep<T>(before: seq<Entry<T>>, table: map<string, T>, last: Entry<T>, olds: map<string, T>)
    requires Addressable(before) && Table(before) == map t | t in table && t !in olds :: table[t]
    requires last.tag != "" && last.tag !in table
    ensures var after := before + (if last.tag in olds then [] else [last]);
            var table' := table[last.tag := last.content];
            Addressable(after) && Table(after) == map t | t in table' && t !in olds :: table'[t]
  {
    if last.tag !in olds {
      AppendNew(before, last);
    } else {
      assert before + [] == before;
    }
  }

  /** Handlers are added exactly when the new list has them and the old one had not. */
  lemma AddedExactly<T>(olds: seq<Entry<T>>, news: seq<Entry<T>>)
    requires Addressable(olds) && Addressable(news)
    ensures Addressable(Added(olds, news))
    ensures Table(Added(olds, news)) ==
            map t | t in Table(news) && !Unchanged(Entry(t, Table(news)[t]), Table(olds)) :: Table(news)[t]
  {
    hide Addressable, Table, Replaced, Fresh;
    ReplacedExactly(olds, Table(news));
    FreshExactly(news, Table(olds));
    Concatenate(Replaced(olds, Table(news)), Fresh(news, Table(olds)));
  }

  // ---------------------------------------------------------------- the small-step theorem

  /**
  On the table of the old handlers every removal finds its tag, then every addition finds its
  tag free, and the table reached is the one the new handlers would have built from nothing.
  */
  lemma DiffReachesNew<T>(olds: seq<Entry<T>>, news: seq<Entry<T>>)
    requires Addressable(olds) && Addressable(news)
    ensures var kept := RemoveAll(Table(olds), Removed(olds, Table(news)));
            kept.Some? && AddAll(kept.value, Added(olds, news)) == Some(Table(news))
  {
    hide Removed, Added, Table, Addressable, RemoveAll, AddAll;
    var removed, added := Removed(olds, Table(news)), Added(olds, news);
    RemovedExactly(olds, Table(news));
    RemoveAllWorks(Table(olds), removed);
    AddedExactly(olds, news);
    KeptAndAdded(Table(olds), Table(news), removed);
    AddAllWorks(RemoveAll(Table(olds), removed).value, added);
  }

  /** What is not removed, and what is added, make the new table without overlap. */
  lemma KeptAndAdded<T>(olds: map<string, T>, news: map<string, T>, removed: seq<string>)
    requires forall t :: t in removed <==> t in olds && !Unchanged(Entry(t, olds[t]), news)
    ensures var kept := map t | t in olds && t !in removed :: olds[t];
            var added := map t | t in news && !Unchanged(Entry(t, news[t]), olds) :: news[t];
            kept.Keys !! added.Keys && kept + added == news
  {
  }

  /** There is nothing to do exactly when both lists build the same table. */
  lemma NothingToDo<T>(olds: seq<Entry<T>>, news: seq<Entry<T>>)
    requires Addressable(olds) && Addressable(news)
    ensures Removed(olds, Table(news)) == [] && Added(olds, news) == [] <==> Table(olds) == Table(news)
  {
    var removed, added := Removed(olds, Table(news)), Added(olds, news);
    DiffReachesNew(olds, news);
    if Table(olds) == Table(news) {
      RemovedExactly(olds, Table(news));
      HasMember(removed);
      AddedExactly(olds, news);
      TableHolds(added);
      assert Table(added) == map[];
    }
  }

  // ---------------------------------------------------------------- a core that is not where it should be

  /** The removals of `tryHotApply`: a missing handler counts as removed. */
  function RemoveTolerant<T>(table: map<string, T>, tags: seq<string>): map<string, T> {
    if tags == [] then table
    else
      var left := RemoveTolerant(table, tags[..|tags| - 1]);
      if tags[|tags| - 1] in left then left - {tags[|tags| - 1]} else left
  }

  /** Its additions: a handler in the way is removed first. */
  function AddReconciling<T>(table: map<string, T>, es: seq<Entry<T>>): map<string, T> {
    if es == [] then table
    else
      var last := es[|es| - 1];
      var grown := AddReconciling(table, es[..|es| - 1]);
      if last.tag in grown then (grown - {last.tag})[last.tag := last.content] else grown[last.tag := last.content]
  }

  lemma {:induction false} RemoveTolerantIs<T>(table: map<string, T>, tags: seq<string>)
    ensures RemoveTolerant(table, tags) == map t | t in table && t !in tags :: table[t]
  {
    if tags == [] {
      assert table == map t | t in table && t !in tags :: table[t];
    } else {
      var init, last := tags[..|tags| - 1], tags[|tags| - 1];
      RemoveTolerantIs(table, init);
      assert tags == init + [last];
    }
  }

  lemma {:induction false} AddReconcilingIs<T>(table: map<string, T>, es: seq<Entry<T>>)
    ensures AddReconciling(table, es) == table + Table(es)
  {
    if es != [] {
      var last, init := es[|es| - 1], es[..|es| - 1];
      AddReconcilingIs(table, init);
      assert (table + Table(init))[last.tag := last.content] == table + Table(es);
      var grown := table + Table(init);
      assert (grown - {last.tag})[last.tag := last.content] == grown[last.tag := last.content];
    }
  }

  /** The diff says nothing about this tag. */
  predicate Untouched<T(==)>(t: string, olds: map<string, T>, news: map<string, T>) {
    (t in olds <==> t in news) && (t in olds ==> olds[t] == news[t])
  }

  predicate AgreesAt<T(==)>(t: string, a: map<string, T>, b: map<string, T>) {
    (t in a <==> t in b) && (t in a ==> a[t] == b[t])
  }

  /**
  When the running handlers are not those the stored configuration says (another request changed
  them), the operations still bring every tag they touch to its new state; the new table is reached
  exactly if the handlers they do not touch were right.
  */
  lemma StaleTableExactly<T>(table: map<string, T>, olds: seq<Entry<T>>, news: seq<Entry<T>>)
    requires Addressable(olds) && Addressable(news)
    ensures var reached := AddReconciling(RemoveTolerant(table, Removed(olds, Table(news))), Added(olds, news));
            && (forall t :: !Untouched(t, Table(olds), Table(news)) ==> AgreesAt(t, reached, Table(news)))
            && (reached == Table(news) <==>
                forall t :: Untouched(t, Table(olds), Table(news)) ==> AgreesAt(t, table, Table(news)))
  {
    hide Table, Added, Removed, Addressable;
    var removed, added := Removed(olds, Table(news)), Added(olds, news);
    RemovedExactly(olds, Table(news));
    RemoveTolerantIs(table, removed);
    AddedExactly(olds, news);
    AddReconcilingIs(RemoveTolerant(table, removed), added);
    var reached := AddReconciling(RemoveTolerant(table, removed), added);
    forall t ensures Untouched(t, Table(olds), Table(news)) ==> (AgreesAt(t, reached, table))
      ensures !Untouched(t, Table(olds), Table(news)) ==> AgreesAt(t, reached, Table(news))
    {
    }
    SameTable(reached, Table(news));
  }

  lemma SameTable<T>(a: map<string, T>, b: map<string, T>)
    ensures a == b <==> forall t :: AgreesAt(t, a, b)
  {
    if forall t :: AgreesAt(t, a, b) {
      assert forall t :: AgreesAt(t, a, b) ==> (t in a <==> t in b);
    }
  }

  lemma HasMember<T>(s: seq<T>)
    ensures s != [] ==> exists x :: x in s
  {
    if s != [] {
      assert s[0] in s;
    }
  }
}
