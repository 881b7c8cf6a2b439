/**
The subscription header (internal/sub/service.go:246-328): the traffic rows of all clients folded
into one, in whatever order the database returns them.
*/
module Aggregate {
  import opened Text

  datatype Row = Row(email: string, up: int, down: int, total: int, expiryTime: int, lastOnline: int)

  datatype Summary = Summary(up: int, down: int, total: int, expiryTime: int, lastOnline: int)

  /** Total and expiry from the clients table, for rows that lost theirs. */
  type Limits = map<string, (int, int)>

  const NO_ROWS := Summary(0, 0, 0, 0, 0)

  // ---------------------------------------------------------------- one row

  function EffectiveTotal(row: Row, limits: Limits): int {
    if row.total == 0 && row.email in limits then limits[row.email].0 else row.total
  }

  function EffectiveExpiry(row: Row, limits: Limits): int {
    if row.expiryTime == 0 && row.email in limits then limits[row.email].1 else row.expiryTime
  }

  /** `subscriptionExpiryFromClient`: a negative expiry is a duration that starts now. */
  function Normalized(now: int, expiryTime: int): int {
    if expiryTime > 0 then expiryTime else if expiryTime < 0 then now - expiryTime else 0
  }

  // ---------------------------------------------------------------- what the fold amounts to

  function Sum(values: seq<int>): int {
    if values == [] then 0 else Sum(values[..|values| - 1]) + values[|values| - 1]
  }

  function Max(values: seq<int>): int {
    if values == [] then 0
    else if values[|values| - 1] > Max(values[..|values| - 1]) then values[|values| - 1]
    else Max(values[..|values| - 1])
  }

  /** The common value of a list, 0 if there is none. */
  function Common(values: seq<int>): int {
    if values != [] && forall v :: v in values ==> v == values[0] then values[0] else 0
  }

  /** A limit is unlimited as soon as one is, or as soon as the limits so far cancel out. */
  predicate Unlimited(totals: seq<int>) {
    0 in totals || exists k :: 0 < k <= |totals| && Sum(totals[..k]) == 0
  }

  /** What the fold makes of a list of limits. */
  function TotalOf(totals: seq<int>): int { if Unlimited(totals) then 0 else Sum(totals) }

  /** The columns that are folded. */
  datatype Column = Up | Down | Online | Total(limits: Limits) | Expiry(limits: Limits, now: int)

  function At(row: Row, column: Column): int {
    match column
    case Up => row.up
    case Down => row.down
    case Online => row.lastOnline
    case Total(limits) => EffectiveTotal(row, limits)
    case Expiry(limits, now) => Normalized(now, EffectiveExpiry(row, limits))
  }

  function Values(rows: seq<Row>, column: Column): (values: seq<int>)
    ensures |values| == |rows|
  {
    seq(|rows|, i requires 0 <= i < |rows| => At(rows[i], column))
  }

  /** Sums, an unlimited total if there is one, the common expiry or none, the latest time online. */
  ghost function Summed(rows: seq<Row>, limits: Limits, now: int): Summary {
    var totals := Values(rows, Total(limits));
    Summary(Sum(Values(rows, Up)), Sum(Values(rows, Down)), TotalOf(totals),
            Common(Values(rows, Expiry(limits, now))), Max(Values(rows, Online)))
  }

  // ---------------------------------------------------------------- what a row counts as

  /** A row that may have lost its limits, and its client's entry in the clients table. */
  predicate LosesLimits(row: Row, reset: Row, limits: Limits) {
    && reset.(total := row.total, expiryTime := row.expiryTime) == row
    && (reset.total == row.total || (reset.total == 0 && row.email in limits && limits[row.email].0 == row.total))
    && (reset.expiryTime == row.expiryTime || (reset.expiryTime == 0 && row.email in limits && limits[row.email].1 == row.expiryTime))
  }

  /** Rows whose limits were reset to 0 make the same summary while the clients table knows them. */
  lemma ResetLimitsDoNotShow(rows: seq<Row>, reset: seq<Row>, limits: Limits, now: int)
    requires |reset| == |rows| && forall i :: 0 <= i < |rows| ==> LosesLimits(rows[i], reset[i], limits)
    ensures Summed(reset, limits, now) == Summed(rows, limits, now)
  {
    SameValues(rows, reset, limits, Up);
    SameValues(rows, reset, limits, Down);
    SameValues(rows, reset, limits, Online);
    SameValues(rows, reset, limits, Total(limits));
    SameValues(rows, reset, limits, Expiry(limits, now));
    hide Values, Sum, Max, Common, Unlimited, LosesLimits;
  }

  lemma SameValues(rows: seq<Row>, reset: seq<Row>, limits: Limits, column: Column)
    requires |reset| == |rows| && forall i :: 0 <= i < |rows| ==> LosesLimits(rows[i], reset[i], limits)
    requires column.Total? || column.Expiry? ==> column.limits == limits
    ensures Values(reset, column) == Values(rows, column)
  {
    forall i | 0 <= i < |rows| ensures Values(reset, column)[i] == Values(rows, column)[i] {
      assert LosesLimits(rows[i], reset[i], limits);
    }
  }

  /** A row's own limits win over the table's; one client alone is summed up as his row says. */
  lemma OneRowSummary(row: Row, limits: Limits, now: int)
    requires row.up >= 0 && row.down >= 0 && row.lastOnline >= 0
    ensures var s := Summed([row], limits, now);
            && s.up == row.up && s.down == row.down && s.lastOnline == row.lastOnline
            && (row.total != 0 || row.email !in limits ==> s.total == row.total)
            && (row.expiryTime > 0 ==> s.expiryTime == row.expiryTime)
            && (row.expiryTime < 0 ==> s.expiryTime - now == -row.expiryTime)
            && (row.expiryTime == 0 && row.email !in limits ==> s.expiryTime == 0)
  {
    One(At(row, Up));
    One(At(row, Down));
    One(At(row, Online));
    One(At(row, Total(limits)));
    One(At(row, Expiry(limits, now)));
    assert Values([row], Up) == [row.up] && Values([row], Down) == [row.down] && Values([row], Online) == [row.lastOnline];
    assert Values([row], Total(limits)) == [At(row, Total(limits))];
    assert Values([row], Expiry(limits, now)) == [At(row, Expiry(limits, now))];
    hide Sum, Max, Common, TotalOf, Values;
  }

  lemma One(v: int)
    ensures Sum([v]) == v && Common([v]) == v && TotalOf([v]) == v && (v >= 0 ==> Max([v]) == v)
  {
    var s := [v];
    assert s[..0] == [] && s[0] == v && v in s;
    assert Sum(s[..0]) == 0 && Max(s[..0]) == 0;
    assert Unlimited(s) ==> v == 0 by {
      assert forall k :: 0 < k <= 1 ==> s[..k] == s;
    }
  }

  // ---------------------------------------------------------------- order does not matter

  lemma {:induction false} SumWithout(values: seq<int>, i: nat)
    requires i < |values|
    ensures Sum(values) == Sum(values[..i] + values[i + 1..]) + values[i]
  {
    var n := |values| - 1;
    var rest := values[..i] + values[i + 1..];
    if i == n {
      assert rest == values[..n];
    } else {
      SumWithout(values[..n], i);
      assert values[..n][..i] + values[..n][i + 1..] == rest[..|rest| - 1];
      assert rest[|rest| - 1] == values[n];
    }
  }

  lemma MultisetWithout<T>(s: seq<T>, i: nat)
    requires i < |s|
    ensures multiset(s) == multiset(s[..i] + s[i + 1..]) + multiset{s[i]}
  {
    assert s == s[..i] + [s[i]] + s[i + 1..];
  }

  /** Two orders of the same elements, less one of them. */
  lemma Without<T>(a: seq<T>, b: seq<T>) returns (i: nat)
    requires a != [] && multiset(a) == multiset(b)
    ensures i < |b| && b[i] == a[|a| - 1]
    ensures multiset(a[..|a| - 1]) == multiset(b[..i] + b[i + 1..])
  {
    var n := |a| - 1;
    assert a[n] in multiset(b);
    i :| 0 <= i < |b| && b[i] == a[n];
    MultisetWithout(a, n);
    MultisetWithout(b, i);
    assert a[..n] + a[n + 1..] == a[..n];
    SameLess(multiset(a[..n]), multiset(b[..i] + b[i + 1..]), a[n]);
  }

  lemma SameLess<T>(a: multiset<T>, b: multiset<T>, x: T)
    requires a + multiset{x} == b + multiset{x}
    ensures a == b
  {
    assert a == a + multiset{x} - multiset{x} && b == b + multiset{x} - multiset{x};
  }

  lemma {:induction false} SumAnyOrder(a: seq<int>, b: seq<int>)
    requires multiset(a) == multiset(b)
    ensures Sum(a) == Sum(b)
    decreases |a|
  {
    if a == [] {
      assert |multiset(b)| == 0;
    } else {
      var i := Without(a, b);
      SumAnyOrder(a[..|a| - 1], b[..i] + b[i + 1..]);
      SumWithout(b, i);
    }
  }

  lemma {:induction false} MaxIs(values: seq<int>)
    ensures Max(values) >= 0 && (forall v :: v in values ==> v <= Max(values))
    ensures Max(values) == 0 || Max(values) in values
  {
    if values != [] {
      var n := |values| - 1;
      MaxIs(values[..n]);
      assert values == values[..n] + [values[n]];
    }
  }

  lemma SameMembers<T>(a: seq<T>, b: seq<T>)
    requires multiset(a) == multiset(b)
    ensures |a| == |b| && forall v :: v in a <==> v in b
  {
    assert |multiset(a)| == |a| && |multiset(b)| == |b|;
    assert forall v :: v in a <==> v in multiset(a);
    assert forall v :: v in b <==> v in multiset(b);
  }

  lemma MaxAnyOrder(a: seq<int>, b: seq<int>)
    requires multiset(a) == multiset(b)
    ensures Max(a) == Max(b)
  {
    SameMembers(a, b);
    MaxIs(a);
    MaxIs(b);
  }

  lemma CommonAnyOrder(a: seq<int>, b: seq<int>)
    requires multiset(a) == multiset(b)
    ensures Common(a) == Common(b)
  {
    SameMembers(a, b);
    if a != [] {
      assert a[0] in b && b[0] in a;
    }
  }

  lemma ValuesWithout(rows: seq<Row>, column: Column, i: nat)
    requires i < |rows|
    ensures multiset(Values(rows, column))
            == multiset(Values(rows[..i] + rows[i + 1..], column)) + multiset{At(rows[i], column)}
  {
    hide At;
    var values := Values(rows, column);
    assert Values(rows[..i] + rows[i + 1..], column) == values[..i] + values[i + 1..];
    MultisetWithout(values, i);
  }

  lemma {:induction false} ValuesAnyOrder(a: seq<Row>, b: seq<Row>, column: Column)
    requires multiset(a) == multiset(b)
    ensures multiset(Values(a, column)) == multiset(Values(b, column))
    decreases |a|
  {
    if a == [] {
      assert |multiset(b)| == 0;
    } else {
      hide Values, At;
      var i := Without(a, b);
      ValuesAnyOrder(a[..|a| - 1], b[..i] + b[i + 1..], column);
      ValuesWithout(b, column, i);
      ValuesWithout(a, column, |a| - 1);
      assert a[..|a| - 1] + a[|a|..] == a[..|a| - 1];
    }
  }

  // ---------------------------------------------------------------- limits that depend on the order

  /** Some of the limits add up to 0. */
  ghost predicate Cancels(totals: seq<int>) {
    exists part: seq<int>, rest: seq<int> :: part != [] && multiset(part + rest) == multiset(totals) && Sum(part) == 0
  }

  /** Some limit is 0, or all of them add up to 0, or no part of them does. */
  ghost predicate OrderFree(totals: seq<int>) { 0 in totals || Sum(totals) == 0 || !Cancels(totals) }

  lemma OrderFreeKeepsTotal(t: seq<int>, u: seq<int>)
    requires multiset(t) == multiset(u) && OrderFree(t)
    ensures TotalOf(t) == TotalOf(u)
  {
    SumAnyOrder(t, u);
    SameMembers(t, u);
    if Sum(t) != 0 && 0 !in t {
      NoZeroPrefix(t, t);
      NoZeroPrefix(t, u);
    }
  }

  lemma NoZeroPrefix(t: seq<int>, u: seq<int>)
    requires multiset(t) == multiset(u) && !Cancels(t)
    ensures forall k :: 0 < k <= |u| ==> Sum(u[..k]) != 0
  {
    forall k | 0 < k <= |u| ensures Sum(u[..k]) != 0 {
      assert u[..k] + u[k..] == u;
    }
  }

  function WithSign(values: seq<int>, positive: bool): seq<int> {
    if values == [] then []
    else
      var v := values[|values| - 1];
      WithSign(values[..|values| - 1], positive) + if (v > 0) == positive then [v] else []
  }

  lemma {:induction false} SignsSplit(values: seq<int>, positive: bool)
    ensures multiset(WithSign(values, positive)) + multiset(WithSign(values, !positive)) == multiset(values)
  {
    hide WithSign;
    SignsOfLast(values, positive);
    SignsOfLast(values, !positive);
    if values != [] {
      var n := |values| - 1;
      var a, b, v := WithSign(values[..n], positive), WithSign(values[..n], !positive), values[n];
      SignsSplit(values[..n], positive);
      MultisetSnoc(values[..n], v);
      assert values == values[..n] + [v];
      if (v > 0) == positive { MultisetSnoc(a, v); } else { MultisetSnoc(b, v); }
      Reassociate(multiset(a), multiset(b), multiset{v});
    }
  }

  lemma SignsOfLast(values: seq<int>, positive: bool)
    ensures values == [] ==> WithSign(values, positive) == []
    ensures values != [] ==>
              var n := |values| - 1;
              WithSign(values, positive)
              == if (values[n] > 0) == positive then WithSign(values[..n], positive) + [values[n]] else WithSign(values[..n], positive)
  {}

  lemma MultisetSnoc(s: seq<int>, v: int)
    ensures multiset(s + [v]) == multiset(s) + multiset{v}
  {}

  lemma Reassociate(a: multiset<int>, b: multiset<int>, c: multiset<int>)
    ensures (a + c) + b == (a + b) + c && a + (b + c) == (a + b) + c
  {}

  lemma {:induction false} SignIs(values: seq<int>, positive: bool)
    ensures forall v :: v in WithSign(values, positive) ==> (v > 0) == positive
  {
    if values != [] {
      SignIs(values[..|values| - 1], positive);
    }
  }

  lemma {:induction false} SumConcat(a: seq<int>, b: seq<int>)
    ensures Sum(a + b) == Sum(a) + Sum(b)
  {
    if b == [] {
      assert a + b == a;
    } else {
      SumConcat(a, b[..|b| - 1]);
      assert (a + b)[..|a + b| - 1] == a + b[..|b| - 1];
    }
  }

  /** A sum of numbers of one sign has that sign. */
  lemma {:induction false} SumSign(values: seq<int>, positive: bool)
    requires forall v :: v in values ==> v != 0 && (v > 0) == positive
    ensures values == [] ==> Sum(values) == 0
    ensures values != [] ==> Sum(values) != 0 && (Sum(values) > 0) == positive
  {
    if values != [] {
      var n := |values| - 1;
      assert values[n] in values;
      assert forall v :: v in values[..n] ==> v in values;
      SumSign(values[..n], positive);
    }
  }

  /** The limits with the sign of their sum first: the sum so far never comes back to 0. */
  lemma SignedOrderIsLimited(t: seq<int>)
    requires 0 !in t && Sum(t) != 0
    ensures var up := Sum(t) > 0;
            var u := WithSign(t, up) + WithSign(t, !up);
            multiset(u) == multiset(t) && TotalOf(u) == Sum(t)
  {
    var up := Sum(t) > 0;
    var a, b := WithSign(t, up), WithSign(t, !up);
    var u := a + b;
    SignsSplit(t, up);
    SignIs(t, up);
    SignIs(t, !up);
    hide WithSign;
    SameMembers(u, t);
    SumAnyOrder(u, t);
    forall k | 0 < k <= |u| ensures Sum(u[..k]) != 0 {
      PrefixHasSign(t, a, b, up, k);
    }
  }

  lemma PrefixHasSign(t: seq<int>, a: seq<int>, b: seq<int>, up: bool, k: nat)
    requires Sum(a + b) == Sum(t) && Sum(t) != 0 && (Sum(t) > 0) == up && 0 < k <= |a + b|
    requires forall v :: v in a ==> v != 0 && (v > 0) == up
    requires forall v :: v in b ==> v != 0 && (v > 0) == !up
    ensures Sum((a + b)[..k]) != 0
  {
    hide Sum;
    if k <= |a| {
      assert (a + b)[..k] == a[..k];
      assert forall v :: v in a[..k] ==> v in a;
      SumSign(a[..k], up);
    } else {
      var rest := (a + b)[k..];
      assert (a + b)[..k] + rest == a + b;
      assert rest == b[k - |a|..] && forall v :: v in rest ==> v in b;
      SumConcat((a + b)[..k], rest);
      SumSign(rest, !up);
    }
  }

  /** All orders of a list of limits agree on the total exactly if the list is order-free. */
  lemma OrdersAgreeExactly(t: seq<int>)
    ensures (forall u :: multiset(u) == multiset(t) ==> TotalOf(u) == TotalOf(t)) <==> OrderFree(t)
  {
    if OrderFree(t) {
      forall u | multiset(u) == multiset(t) ensures TotalOf(u) == TotalOf(t) {
        OrderFreeKeepsTotal(t, u);
      }
    } else {
      var u, v := TwoOrders(t);
    }
  }

  lemma TwoOrders(t: seq<int>) returns (u: seq<int>, v: seq<int>)
    requires !OrderFree(t)
    ensures multiset(u) == multiset(t) && multiset(v) == multiset(t) && TotalOf(u) == 0 && TotalOf(v) == Sum(t) != 0
  {
    var part, rest :| part != [] && multiset(part + rest) == multiset(t) && Sum(part) == 0;
    u := part + rest;
    assert u[..|part|] == part;
    SignedOrderIsLimited(t);
    v := WithSign(t, Sum(t) > 0) + WithSign(t, !(Sum(t) > 0));
  }

  /** Every order of a column is the column of some order of the rows. */
  lemma {:induction false} Reorder(rows: seq<Row>, column: Column, u: seq<int>) returns (b: seq<Row>)
    requires multiset(u) == multiset(Values(rows, column))
    ensures multiset(b) == multiset(rows) && Values(b, column) == u
    decreases |u|
  {
    hide At;
    if u == [] {
      assert |multiset(Values(rows, column))| == 0;
      b := [];
    } else {
      var n := |u| - 1;
      var i := Without(u, Values(rows, column));
      var rest := rows[..i] + rows[i + 1..];
      assert Values(rest, column) == Values(rows, column)[..i] + Values(rows, column)[i + 1..];
      var c := Reorder(rest, column, u[..n]);
      b := c + [rows[i]];
      MultisetWithout(rows, i);
      assert Values(b, column) == Values(c, column) + [At(rows[i], column)];
      assert u == u[..n] + [u[n]];
    }
  }

  /**
  The summary is the same for every order of the rows if and only if some limit is 0, or all limits
  add up to 0, or no part of them does; limits that are not negative always are such.
  */
  lemma AnyOrderSameSummary(a: seq<Row>, limits: Limits, now: int)
    ensures (forall b :: multiset(b) == multiset(a) ==> Summed(b, limits, now) == Summed(a, limits, now))
            <==> OrderFree(Values(a, Total(limits)))
    ensures (forall t :: t in Values(a, Total(limits)) ==> t >= 0) ==> OrderFree(Values(a, Total(limits)))
  {
    var t := Values(a, Total(limits));
    if OrderFree(t) {
      forall b | multiset(b) == multiset(a) ensures Summed(b, limits, now) == Summed(a, limits, now) {
        OrderFreeSummary(a, b, limits, now);
      }
    } else {
      var u, v := TwoOrders(t);
      var b := Reorder(a, Total(limits), u);
      var c := Reorder(a, Total(limits), v);
      assert Summed(b, limits, now).total != Summed(c, limits, now).total;
    }
    if forall x :: x in t ==> x >= 0 {
      NonNegativeIsOrderFree(t);
    }
  }

  lemma OrderFreeSummary(a: seq<Row>, b: seq<Row>, limits: Limits, now: int)
    requires multiset(b) == multiset(a) && OrderFree(Values(a, Total(limits)))
    ensures Summed(b, limits, now) == Summed(a, limits, now)
  {
    hide Sum, Max, Common, Unlimited, Values, OrderFree;
    ValuesAnyOrder(a, b, Up);
    SumAnyOrder(Values(a, Up), Values(b, Up));
    ValuesAnyOrder(a, b, Down);
    SumAnyOrder(Values(a, Down), Values(b, Down));
    ValuesAnyOrder(a, b, Online);
    MaxAnyOrder(Values(a, Online), Values(b, Online));
    ValuesAnyOrder(a, b, Total(limits));
    OrderFreeKeepsTotal(Values(a, Total(limits)), Values(b, Total(limits)));
    ValuesAnyOrder(a, b, Expiry(limits, now));
    CommonAnyOrder(Values(a, Expiry(limits, now)), Values(b, Expiry(limits, now)));
  }

  lemma NonNegativeIsOrderFree(t: seq<int>)
    requires forall x :: x in t ==> x >= 0
    ensures OrderFree(t)
  {
    if 0 !in t && Cancels(t) {
      var part, rest :| part != [] && multiset(part + rest) == multiset(t) && Sum(part) == 0;
      SameMembers(part + rest, t);
      assert forall x :: x in part ==> x in part + rest;
      SumSign(part, true);
      assert false;
    }
  }

  /** With limits 5, -5 and 3 two orders of the rows give different summaries. */
  lemma NegativeLimitsDependOnOrder(now: int) returns (a: seq<Row>, b: seq<Row>)
    ensures multiset(a) == multiset(b) && Summed(a, map[], now) != Summed(b, map[], now)
  {
    hide Sum, Max, Common, Unlimited, Summed, Cancels;
    a := [Row("x", 0, 0, 5, 0, 0), Row("y", 0, 0, -5, 0, 0), Row("z", 0, 0, 3, 0, 0)];
    var t := Values(a, Total(map[]));
    assert t == [5, -5, 3];
    CancellingLimits();
    AnyOrderSameSummary(a, map[], now);
    b :| multiset(b) == multiset(a) && Summed(b, map[], now) != Summed(a, map[], now);
  }

  lemma CancellingLimits()
    ensures !OrderFree([5, -5, 3])
  {
    var part, rest: seq<int> := [5, -5], [3];
    assert part + rest == [5, -5, 3];
    assert [5, -5][..1] == [5] && [5][..0] == [] && [5, -5, 3][..2] == [5, -5];
    assert Sum([5]) == 5 && Sum([5, -5]) == 0 && Sum([5, -5, 3]) == 3;
  }

  // ---------------------------------------------------------------- the code

  /** The fold of `AggregateTrafficByEmails`. */
  method Fold(rows: seq<Row>, limits: Limits, now: int) returns (agg: Summary)
    ensures agg == Summed(rows, limits, now)
  {
    agg := NO_ROWS;
    var lastOnline := 0;
    var first := true;
    for i := 0 to |rows|
      invariant first <==> i == 0
      invariant agg.(lastOnline := lastOnline) == Summed(rows[..i], limits, now)
    {
      var ct := rows[i];
      if ct.lastOnline > lastOnline {
        lastOnline := ct.lastOnline;
      }
      var total, expiry := EffectiveTotal(ct, limits), EffectiveExpiry(ct, limits);
      OneRowMore(rows, i, limits, now);
      assert agg.(lastOnline := lastOnline) == Summed(rows[..i], limits, now).(lastOnline := lastOnline);
      if first {
        agg := Summary(ct.up, ct.down, total, Normalized(now, expiry), 0);
        first := false;
        continue;
      }
      agg := agg.(up := agg.up + ct.up, down := agg.down + ct.down,
                  total := if agg.total == 0 || total == 0 then 0 else agg.total + total);
      var normalized := Normalized(now, expiry);
      if normalized != agg.expiryTime {
        agg := agg.(expiryTime := 0);
      }
    }
    assert rows[..|rows|] == rows;
    agg := agg.(lastOnline := lastOnline);
  }

  lemma OneMoreLimit(values: seq<int>, v: int)
    ensures Unlimited(values + [v]) <==> Unlimited(values) || v == 0 || Sum(values + [v]) == 0
  {
    hide Sum;
    var more := values + [v];
    assert more[..|more|] == more;
    forall k | 0 < k <= |values| ensures more[..k] == values[..k] {}
    assert 0 in more <==> 0 in values || v == 0;
  }

  lemma OneMore(values: seq<int>, v: int)
    ensures Sum(values + [v]) == Sum(values) + v
    ensures Max(values + [v]) == if v > Max(values) then v else Max(values)
    ensures Common(values + [v]) == if values == [] || v == Common(values) then v else 0
    ensures Unlimited(values + [v]) <==> Unlimited(values) || v == 0 || Sum(values + [v]) == 0
  {
    var more := values + [v];
    assert more[..|values|] == values && more[..|more|] == more;
    assert Sum(more) == Sum(values) + v;
    OneMoreLimit(values, v);
    hide Sum, Unlimited;
    if values != [] {
      assert more[0] == values[0] && v in more && values[0] in more;
      assert forall w :: w in more <==> w in values || w == v;
    } else {
      assert more == [v];
    }
  }

  lemma OneRowMore(rows: seq<Row>, i: nat, limits: Limits, now: int)
    requires i < |rows|
    ensures var s, t, row := Summed(rows[..i], limits, now), Summed(rows[..i + 1], limits, now), rows[i];
            var total, expiry := EffectiveTotal(row, limits), Normalized(now, EffectiveExpiry(row, limits));
            && t.up == s.up + row.up && t.down == s.down + row.down
            && t.total == (if i > 0 && (s.total == 0 || total == 0) then 0 else s.total + total)
            && t.expiryTime == (if i == 0 || expiry == s.expiryTime then expiry else 0)
            && t.lastOnline == (if row.lastOnline > s.lastOnline then row.lastOnline else s.lastOnline)
  {
    hide Sum, Max, Common, Unlimited;
    OneColumnMore(rows, i, Up);
    OneColumnMore(rows, i, Down);
    OneColumnMore(rows, i, Online);
    OneColumnMore(rows, i, Expiry(limits, now));
    OneColumnMore(rows, i, Total(limits));
    UnlimitedStart(Values(rows[..i], Total(limits)));
  }

  lemma OneColumnMore(rows: seq<Row>, i: nat, column: Column)
    requires i < |rows|
    ensures var before, after, v := Values(rows[..i], column), Values(rows[..i + 1], column), At(rows[i], column);
            && |before| == i
            && Sum(after) == Sum(before) + v
            && Max(after) == (if v > Max(before) then v else Max(before))
            && Common(after) == (if before == [] || v == Common(before) then v else 0)
            && (Unlimited(after) <==> Unlimited(before) || v == 0 || Sum(after) == 0)
  {
    hide Sum, Max, Common, Unlimited, At;
    assert Values(rows[..i + 1], column) == Values(rows[..i], column) + [At(rows[i], column)];
    OneMore(Values(rows[..i], column), At(rows[i], column));
  }

  /** Sums of limits so far are 0 only where the rest is unlimited anyway. */
  lemma UnlimitedStart(totals: seq<int>)
    ensures totals == [] ==> !Unlimited(totals) && Sum(totals) == 0
    ensures totals != [] && Sum(totals) == 0 ==> Unlimited(totals)
  {
    assert totals[..|totals|] == totals;
  }
}
