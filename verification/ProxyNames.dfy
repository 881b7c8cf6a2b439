/**
`ensureUniqueProxyNames` (internal/sub/clash_service.go:114-144): every proxy of a Clash profile
gets a non-empty name of its own. Proxies are maps updated in place.
*/
module ProxyNames {
  import opened Text

  /** A value of a proxy map; `Shown` is any other value with the text `%v` prints for it. */
  datatype Field = Str(text: string) | Num(number: int) | Shown(shown: string)

  type Fields = map<string, Field>

  class Proxy {
    var fields: Fields

    constructor (fields: Fields)
      ensures this.fields == fields
    {
      this.fields := fields;
    }
  }

  // ---------------------------------------------------------------- names

  /** `v, _ := proxy[key].(string)`. */
  function TextAt(fields: Fields, key: string): string {
    if key in fields && fields[key].Str? then fields[key].text else ""
  }

  /** `%v`. */
  function ShownAt(fields: Fields, key: string): string {
    if key !in fields then "<nil>"
    else match fields[key]
      case Str(s) => s
      case Num(n) => Itoa(n)
      case Shown(s) => s
  }

  function FallbackProxyName(fields: Fields, i: nat): (name: string)
    ensures name != ""
  {
    var typ := TextAt(fields, "type");
    var server := TextAt(fields, "server");
    if typ != "" && server != "" then typ + "-" + server + "-" + ShownAt(fields, "port")
    else "proxy-" + Itoa(i + 1)
  }

  /** The name proxy number `i` asks for. */
  function Base(fields: Fields, i: nat): (name: string)
    ensures name != ""
  {
    if TextAt(fields, "name") == "" then FallbackProxyName(fields, i) else TextAt(fields, "name")
  }

  /** A proxy that has a name asks for it; one without asks for its type, server and port, or else its place in the list. */
  lemma AskedNames(fields: Fields, i: nat, typ: string, server: string, port: int)
    requires typ != "" && server != ""
    ensures "name" in fields && fields["name"].Str? && fields["name"].text != "" ==> Base(fields, i) == fields["name"].text
    ensures "name" !in fields || fields["name"] == Str("") ==>
              Base(fields["type" := Str(typ)]["server" := Str(server)]["port" := Num(port)], i) == typ + "-" + server + "-" + Itoa(port)
    ensures Base(map[], i) == Base(map["type" := Str(typ)], i) == Base(map["server" := Str(server)], i) == "proxy-" + Itoa(i + 1)
  {
    var keys := ["name", "type", "server", "port"];
    assert keys[0][0] == 'n' && keys[1][0] == 't' && keys[2][0] == 's' && keys[3][0] == 'p';
  }

  /** A port of another type is shown as it is, and a missing one as `<nil>`. */
  lemma AskedPorts(port: Field, i: nat, typ: string, server: string)
    requires typ != "" && server != ""
    ensures var fields := map["type" := Str(typ), "server" := Str(server)];
            && Base(fields, i) == typ + "-" + server + "-" + "<nil>"
            && (port.Str? ==> Base(fields["port" := port], i) == typ + "-" + server + "-" + port.text)
            && (port.Shown? ==> Base(fields["port" := port], i) == typ + "-" + server + "-" + port.shown)
  {
    var keys := ["name", "type", "server", "port"];
    assert keys[0][0] == 'n' && keys[1][0] == 't' && keys[2][0] == 's' && keys[3][0] == 'p';
  }

  /** The `n`-th name tried for `base`: base, base-2, base-3 and so on. */
  function Candidate(base: string, n: nat): string { if n <= 1 then base else base + "-" + Itoa(n) }

  lemma CandidatesDiffer(base: string, m: nat, n: nat)
    requires 1 <= m && 1 <= n && Candidate(base, m) == Candidate(base, n)
    ensures m == n
  {
    var d := |base| + 1;
    if m > 1 && n > 1 {
      assert Candidate(base, m)[d..] == Itoa(m) && Candidate(base, n)[d..] == Itoa(n);
      ItoaInjective(m, n);
    }
  }

  /** The first `n` candidates. */
  ghost function Candidates(base: string, n: nat): set<string> { set m: nat | 1 <= m <= n :: Candidate(base, m) }

  lemma {:induction false} CandidatesCount(base: string, n: nat)
    ensures |Candidates(base, n)| == n
    ensures n > 0 ==> Candidates(base, n) == Candidates(base, n - 1) + {Candidate(base, n)}
  {
    hide Candidate;
    if n > 0 {
      CandidatesCount(base, n - 1);
      if Candidate(base, n) in Candidates(base, n - 1) {
        var m: nat :| 1 <= m < n && Candidate(base, m) == Candidate(base, n);
        CandidatesDiffer(base, m, n);
      }
      assert Candidates(base, n) == Candidates(base, n - 1) + {Candidate(base, n)};
    }
  }

  lemma NoCandidates(base: string)
    ensures Candidates(base, 0) == {} && Candidate(base, 1) == base
  {}

  lemma NextCandidate(base: string, n: nat)
    requires n >= 2
    ensures Candidate(base, n) == base + "-" + Itoa(n)
  {}

  /** `name` is the first candidate for `base` that is not in `seen`. */
  ghost predicate FirstFree(base: string, seen: set<string>, name: string) {
    && name !in seen
    && exists n: nat :: 1 <= n && name == Candidate(base, n)
         && forall m :: 1 <= m < n ==> Candidate(base, m) in seen
  }

  lemma FirstFreeUnique(base: string, seen: set<string>, a: string, b: string)
    requires FirstFree(base, seen, a) && FirstFree(base, seen, b)
    ensures a == b
  {
  }

  function NamesUpTo(names: seq<string>, i: nat): set<string>
    requires i <= |names|
  {
    set k | 0 <= k < i :: names[k]
  }

  /** Every proxy in turn gets the first candidate no earlier proxy has. */
  ghost predicate Assigned(bases: seq<string>, names: seq<string>) {
    && |names| == |bases|
    && forall i :: 0 <= i < |bases| ==> FirstFree(bases[i], NamesUpTo(names, i), names[i])
  }

  /** The assignment leaves no choice. */
  lemma {:induction false} AssignedUnique(bases: seq<string>, a: seq<string>, b: seq<string>)
    requires Assigned(bases, a) && Assigned(bases, b)
    ensures a == b
  {
    hide FirstFree;
    var i := 0;
    while i < |bases|
      invariant i <= |bases| && a[..i] == b[..i]
    {
      assert NamesUpTo(a, i) == NamesUpTo(b, i) by {
        assert forall k :: 0 <= k < i ==> a[k] == a[..i][k] && b[k] == b[..i][k];
      }
      FirstFreeUnique(bases[i], NamesUpTo(a, i), a[i], b[i]);
      assert a[..i + 1] == a[..i] + [a[i]] && b[..i + 1] == b[..i] + [b[i]];
      i := i + 1;
    }
  }

  /** Names are distinct and non-empty, and a name no earlier proxy took is kept. */
  lemma AssignedIsSound(bases: seq<string>, names: seq<string>)
    requires Assigned(bases, names) && forall b :: b in bases ==> b != ""
    ensures forall i, j :: 0 <= i < j < |names| ==> names[i] != names[j]
    ensures forall i :: 0 <= i < |names| ==> names[i] != ""
    ensures forall i :: 0 <= i < |names| ==>
              (names[i] == bases[i] <==> bases[i] !in NamesUpTo(names, i))
  {
    forall i, j | 0 <= i < j < |names| ensures names[i] != names[j] {
      assert names[i] in NamesUpTo(names, j);
    }
    forall i | 0 <= i < |names|
      ensures names[i] != "" && (names[i] == bases[i] <==> bases[i] !in NamesUpTo(names, i))
    {
      assert bases[i] in bases && FirstFree(bases[i], NamesUpTo(names, i), names[i]);
      assert Candidate(bases[i], 1) == bases[i];
    }
  }

  /** Distinct names are left alone. */
  lemma DistinctStay(bases: seq<string>, names: seq<string>)
    requires Assigned(bases, names)
    requires forall i, j :: 0 <= i < j < |bases| ==> bases[i] != bases[j]
    ensures names == bases
  {
    forall i | 0 <= i < |bases| ensures FirstFree(bases[i], NamesUpTo(bases, i), bases[i]) {
      assert bases[i] == Candidate(bases[i], 1);
    }
    AssignedUnique(bases, names, bases);
  }

  // ---------------------------------------------------------------- proxies

  function Bases(maps: seq<Fields>): seq<string> {
    seq(|maps|, i requires 0 <= i < |maps| => Base(maps[i], i))
  }

  function Renamed(maps: seq<Fields>, names: seq<string>): seq<Fields>
    requires |maps| == |names|
  {
    seq(|maps|, i requires 0 <= i < |maps| => maps[i]["name" := Str(names[i])])
  }

  /**
  What a run leaves behind: names non-empty and pairwise distinct, every name kept that is
  non-empty and not taken by an earlier proxy, and nothing left to do for a second run.
  */
  lemma RunMakesNamesUnique(maps: seq<Fields>, names: seq<string>)
    requires Assigned(Bases(maps), names)
    ensures var after := Renamed(maps, names);
            && (forall i, j :: 0 <= i < j < |after| ==> TextAt(after[i], "name") != TextAt(after[j], "name"))
            && (forall i :: 0 <= i < |after| ==> TextAt(after[i], "name") != "")
            && (forall i :: 0 <= i < |after| && TextAt(maps[i], "name") != ""
                  && TextAt(maps[i], "name") !in NamesUpTo(names, i)
                  ==> TextAt(after[i], "name") == TextAt(maps[i], "name"))
            && (forall again :: Assigned(Bases(after), again) ==> Renamed(after, again) == after)
  {
    var after := Renamed(maps, names);
    AssignedIsSound(Bases(maps), names);
    forall i | 0 <= i < |maps| && TextAt(maps[i], "name") != "" && TextAt(maps[i], "name") !in NamesUpTo(names, i)
      ensures names[i] == TextAt(maps[i], "name")
    {
      assert Bases(maps)[i] == TextAt(maps[i], "name");
    }
    forall again | Assigned(Bases(after), again) ensures Renamed(after, again) == after {
      SecondRunIdle(maps, names, again);
    }
  }

  lemma SecondRunIdle(maps: seq<Fields>, names: seq<string>, again: seq<string>)
    requires |maps| == |names|
    requires forall i, j :: 0 <= i < j < |names| ==> names[i] != names[j]
    requires forall i :: 0 <= i < |names| ==> names[i] != ""
    requires Assigned(Bases(Renamed(maps, names)), again)
    ensures Renamed(Renamed(maps, names), again) == Renamed(maps, names)
  {
    assert Bases(Renamed(maps, names)) == names;
    DistinctStay(names, again);
    var after := Renamed(maps, names);
    forall i | 0 <= i < |maps| ensures Renamed(after, again)[i] == after[i] {
      assert after[i]["name" := Str(names[i])] == after[i];
    }
  }

  /** The first proxy to ask for a name may already find it taken by a suffixed one. */
  lemma SuffixesCollide()
    ensures Assigned(["a", "a", "a-2"], ["a", "a-2", "a-2-2"])
  {
    var names := ["a", "a-2", "a-2-2"];
    assert Itoa(2) == "2";
    assert Candidate("a", 1) == "a" && Candidate("a", 2) == "a-2";
    assert Candidate("a-2", 1) == "a-2" && Candidate("a-2", 2) == "a-2-2";
    assert NamesUpTo(names, 0) == {} && NamesUpTo(names, 1) == {names[0]};
    assert NamesUpTo(names, 2) == {names[0], names[1]};
    assert |names[1]| == 3 && |names[2]| == 5;
  }

  // ---------------------------------------------------------------- the code

  ghost function Contents(proxies: seq<Proxy>): (maps: seq<Fields>)
    reads proxies
    ensures |maps| == |proxies| && forall i :: 0 <= i < |proxies| ==> maps[i] == proxies[i].fields
  {
    seq(|proxies|, i requires 0 <= i < |proxies| reads proxies => proxies[i].fields)
  }

  /** The inner loop: it ends because the candidates differ and `seen` is finite. */
  method FreeName(base: string, seen: set<string>) returns (name: string)
    ensures FirstFree(base, seen, name)
  {
    hide Candidate;
    name := base;
    var n: nat := 2;
    NoCandidates(base);
    while name in seen
      invariant 2 <= n && name == Candidate(base, n - 1)
      invariant Candidates(base, n - 2) <= seen
      decreases |seen| + 2 - n
    {
      CandidatesCount(base, n - 1);
      SubsetIsNoLarger(Candidates(base, n - 1), seen);
      NextCandidate(base, n);
      name := base + "-" + Itoa(n);
      n := n + 1;
    }
    assert forall m :: 1 <= m < n - 1 ==> Candidate(base, m) in Candidates(base, n - 2);
  }

  lemma {:induction false} SubsetIsNoLarger<T>(a: set<T>, b: set<T>)
    requires a <= b
    ensures |a| <= |b|
  {
    if a != {} {
      var x :| x in a;
      SubsetIsNoLarger(a - {x}, b - {x});
    }
  }

  lemma NamesUpToExtend(names: seq<string>, name: string)
    ensures NamesUpTo(names + [name], |names| + 1) == NamesUpTo(names, |names|) + {name}
    ensures forall k :: 0 <= k <= |names| ==> NamesUpTo(names + [name], k) == NamesUpTo(names, k)
  {
    var more := names + [name];
    forall k | 0 <= k <= |names| ensures NamesUpTo(more, k) == NamesUpTo(names, k) {
      assert forall j :: 0 <= j < k ==> more[j] == names[j];
    }
    assert more[|names|] == name;
    assert NamesUpTo(more, |names|) <= NamesUpTo(more, |names| + 1);
  }

  method BaseName(fields: Fields, i: nat) returns (base: string)
    ensures base == Base(fields, i)
  {
    base := TextAt(fields, "name");
    if base == "" {
      base := FallbackProxyName(fields, i);
    }
  }

  /** `ensureUniqueProxyNames`: the names change as assigned, nothing else does. */
  method EnsureUniqueProxyNames(proxies: seq<Proxy>) returns (ghost names: seq<string>)
    requires forall i, j :: 0 <= i < j < |proxies| ==> proxies[i] != proxies[j]
    modifies proxies
    ensures Assigned(Bases(old(Contents(proxies))), names)
    ensures Contents(proxies) == Renamed(old(Contents(proxies)), names)
  {
    hide FirstFree, NamesUpTo, Base, Assigned;
    var seen: set<string> := {};
    names := [];
    ghost var maps := Contents(proxies);
    NobodyNamed(maps[..0], names);
    var i := 0;
    while i < |proxies|
      invariant i <= |proxies| && |names| == i && Assigned(Bases(maps[..i]), names)
      invariant seen == NamesUpTo(names, i)
      invariant forall k :: 0 <= k < i ==> proxies[k].fields == maps[k]["name" := Str(names[k])]
      invariant forall k :: i <= k < |proxies| ==> proxies[k].fields == maps[k]
    {
      var proxy := proxies[i];
      var base := BaseName(proxy.fields, i);
      var name := FreeName(base, seen);
      NamesUpToExtend(names, name);
      AssignOne(maps, i, names, name);
      seen := seen + {name};
      proxy.fields := proxy.fields["name" := Str(name)];
      names := names + [name];
      i := i + 1;
    }
    assert maps[..i] == maps;
  }

  lemma NobodyNamed(maps: seq<Fields>, names: seq<string>)
    requires maps == [] && names == []
    ensures Assigned(Bases(maps), names) && NamesUpTo(names, 0) == {}
  {}

  lemma AssignOne(maps: seq<Fields>, i: nat, names: seq<string>, name: string)
    requires i < |maps| && Assigned(Bases(maps[..i]), names) && FirstFree(Base(maps[i], i), NamesUpTo(names, i), name)
    ensures Assigned(Bases(maps[..i + 1]), names + [name])
  {
    hide FirstFree, NamesUpTo, Base;
    NamesUpToExtend(names, name);
    assert forall k :: 0 <= k < i ==> Bases(maps[..i + 1])[k] == Bases(maps[..i])[k];
  }
}
