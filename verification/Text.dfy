/**
Text shared by every component: an optional value, the byte-wise order Go uses to sort
map keys, decimal printing, and cutting, splitting and joining at one character.
Where the source works on bytes, every character of a string stands for one byte.
*/
module Text {

  datatype Option<+T> = None | Some(value: T)
  {
    function GetOr(default: T): T { match this case None => default case Some(v) => v }
  }

  /** Go's map iteration may come to any remaining key next. */
  method PickOne<T>(keys: set<T>) returns (key: T)
    requires keys != {}
    ensures key in keys
  {
    key :| key in keys;
  }

  /** The UTF-8 encoding of a code point, one character a byte (section 3 of RFC 3629). */
  function Utf8(c: nat): string
    requires c < 0x110000
  {
    if c < 0x80 then [c as char]
    else if c < 0x800 then [(0xC0 + c / 64) as char, (0x80 + c % 64) as char]
    else if c < 0x10000 then [(0xE0 + c / 4096) as char, (0x80 + c / 64 % 64) as char, (0x80 + c % 64) as char]
    else
      [(0xF0 + c / 262144) as char, (0x80 + c / 4096 % 64) as char, (0x80 + c / 64 % 64) as char, (0x80 + c % 64) as char]
  }

  // ---------------------------------------------------------------- order of strings

  /** Lexicographic order, the order of Go's `sort.Strings`. */
  predicate AtMost(a: string, b: string) {
    a == "" || (b != "" && (a[0] < b[0] || (a[0] == b[0] && AtMost(a[1..], b[1..]))))
  }

  lemma {:induction false} AtMostTotal(a: string, b: string)
    ensures AtMost(a, b) || AtMost(b, a)
  {
    if a != "" && b != "" && a[0] == b[0] {
      AtMostTotal(a[1..], b[1..]);
    }
  }

  lemma {:induction false} AtMostTransitive(a: string, b: string, c: string)
    requires AtMost(a, b) && AtMost(b, c)
    ensures AtMost(a, c)
  {
    if a != "" && a[0] == b[0] && b[0] == c[0] {
      AtMostTransitive(a[1..], b[1..], c[1..]);
    }
  }

  /** The order compares the first characters that differ, and a text comes before its extensions. */
  lemma {:induction false} AtMostExactly(a: string, b: string)
    ensures AtMost(a, b) <==> a <= b || exists i :: 0 <= i < |a| && i < |b| && a[..i] == b[..i] && a[i] < b[i]
  {
    if a != "" && b != "" && a[0] == b[0] {
      AtMostExactly(a[1..], b[1..]);
      assert a == [a[0]] + a[1..] && b == [b[0]] + b[1..];
      if i :| 0 <= i < |a[1..]| && i < |b[1..]| && a[1..][..i] == b[1..][..i] && a[1..][i] < b[1..][i] {
        assert a[..i + 1] == [a[0]] + a[1..][..i] && b[..i + 1] == [b[0]] + b[1..][..i];
      }
      if i :| 0 <= i < |a| && i < |b| && a[..i] == b[..i] && a[i] < b[i] {
        assert i > 0 && a[1..][..i - 1] == a[..i][1..] && b[1..][..i - 1] == b[..i][1..];
      }
    } else if a != "" && b != "" && a[0] < b[0] {
      assert a[..0] == b[..0];
    } else if a != "" && b != "" {
      assert forall i :: 0 < i && i < |a| && i < |b| && a[..i] == b[..i] ==> a[..i][0] == b[..i][0];
    }
  }

  lemma {:induction false} LeastExists(keys: set<string>) returns (least: string)
    requires keys != {}
    ensures least in keys && forall k :: k in keys ==> AtMost(least, k)
  {
    var k :| k in keys;
    if keys == {k} {
      least := k;
      AtMostTotal(k, k);
    } else {
      var rest := LeastExists(keys - {k});
      AtMostTotal(k, rest);
      least := if AtMost(k, rest) then k else rest;
      forall other | other in keys ensures AtMost(least, other) {
        AtMostTotal(k, k);
        if other != k {
          assert AtMost(rest, other);
          if least == k {
            AtMostTransitive(k, rest, other);
          }
        }
      }
    }
  }

  lemma {:induction false} AtMostAntisymmetric(a: string, b: string)
    requires AtMost(a, b) && AtMost(b, a)
    ensures a == b
  {
    if a != "" {
      AtMostAntisymmetric(a[1..], b[1..]);
      assert a == [a[0]] + a[1..] && b == [b[0]] + b[1..];
    }
  }

  function Least(keys: set<string>): (least: string)
    requires keys != {}
    ensures least in keys && forall k :: k in keys ==> AtMost(least, k)
  {
    assert exists least :: least in keys && forall k :: k in keys ==> AtMost(least, k) by {
      var least := LeastExists(keys);
    }
    assert forall a, b :: AtMost(a, b) && AtMost(b, a) ==> a == b by {
      forall a, b | AtMost(a, b) && AtMost(b, a) ensures a == b {
        AtMostAntisymmetric(a, b);
      }
    }
    var least :| least in keys && forall k :: k in keys ==> AtMost(least, k);
    least
  }

  /** The keys of a map in the order in which Go prints them. */
  function Sorted(keys: set<string>): seq<string> {
    if keys == {} then [] else [Least(keys)] + Sorted(keys - {Least(keys)})
  }

  lemma {:induction false} SortedOrders(keys: set<string>)
    ensures forall k :: k in Sorted(keys) <==> k in keys
    ensures forall i, j :: 0 <= i < j < |Sorted(keys)| ==>
              Sorted(keys)[i] != Sorted(keys)[j] && AtMost(Sorted(keys)[i], Sorted(keys)[j])
    ensures |Sorted(keys)| == |keys|
  {
    hide AtMost;
    if keys != {} {
      var least, others := Least(keys), keys - {Least(keys)};
      SortedOrders(others);
      assert Sorted(keys) == [least] + Sorted(others);
      hide Least, Sorted;
      LeastFirst(least, Sorted(others));
    }
  }

  lemma LeastFirst(least: string, rest: seq<string>)
    requires forall k :: k in rest ==> least != k && AtMost(least, k)
    requires forall i, j :: 0 <= i < j < |rest| ==> rest[i] != rest[j] && AtMost(rest[i], rest[j])
    ensures var all := [least] + rest;
            forall i, j :: 0 <= i < j < |all| ==> all[i] != all[j] && AtMost(all[i], all[j])
  {
    hide AtMost;
    var all := [least] + rest;
    forall i, j | 0 <= i < j < |all| ensures all[i] != all[j] && AtMost(all[i], all[j]) {
      assert all[j] == rest[j - 1] && rest[j - 1] in rest;
      assert all[i] == if i == 0 then least else rest[i - 1];
    }
  }

  // ---------------------------------------------------------------- decimal numbers

  function DigitChar(d: nat): (c: char)
    requires d < 10
    ensures '0' <= c <= '9'
  {
    ('0' as int + d) as char
  }

  predicate IsDigit(c: char) { '0' <= c <= '9' }

  predicate AllDigits(s: string) { forall i :: 0 <= i < |s| ==> IsDigit(s[i]) }

  function Digits(n: nat): (s: string)
    ensures s != "" && AllDigits(s)
  {
    if n < 10 then [DigitChar(n)] else Digits(n / 10) + [DigitChar(n % 10)]
  }

  /** `strconv.Itoa`. */
  function Itoa(n: int): (s: string)
    ensures s != "" && AllDigits(s[1..]) && (IsDigit(s[0]) || s[0] == '-')
  {
    if n < 0 then "-" + Digits(-n) else Digits(n)
  }

  /** The number a run of decimal digits stands for. */
  function DigitsValue(s: string): int
    requires AllDigits(s)
  {
    if s == "" then 0 else 10 * DigitsValue(s[..|s| - 1]) + (s[|s| - 1] as int - '0' as int)
  }

  function Atoi(s: string): Option<int> {
    if s != "" && AllDigits(s) then Some(DigitsValue(s))
    else if |s| > 1 && s[0] == '-' && AllDigits(s[1..]) then Some(-DigitsValue(s[1..]))
    else None
  }

  lemma {:induction false} DigitsReadBack(n: nat)
    ensures DigitsValue(Digits(n)) == n
  {
    if n >= 10 {
      DigitsReadBack(n / 10);
      var s := Digits(n);
      assert s[..|s| - 1] == Digits(n / 10);
    }
  }

  /** Decimal printing loses nothing: it is read back, so it is injective. */
  lemma ItoaReadBack(n: int)
    ensures Atoi(Itoa(n)) == Some(n)
  {
    if n < 0 {
      DigitsReadBack(-n);
      assert Itoa(n)[1..] == Digits(-n);
      assert !IsDigit(Itoa(n)[0]);
    } else {
      DigitsReadBack(n);
    }
  }

  /** No leading zeros. */
  lemma {:induction false} DigitsAreShortest(n: nat)
    ensures Digits(n)[0] == '0' <==> n == 0
    ensures n < 10 <==> |Digits(n)| == 1
  {
    if n >= 10 {
      DigitsAreShortest(n / 10);
    }
  }

  lemma ItoaInjective(a: int, b: int)
    requires Itoa(a) == Itoa(b)
    ensures a == b
  {
    ItoaReadBack(a);
    ItoaReadBack(b);
  }

  /** Number of digits at the front. */
  function DigitRun(s: string): (n: nat)
    ensures n <= |s|
  {
    if s == "" || !IsDigit(s[0]) then 0 else 1 + DigitRun(s[1..])
  }

  lemma {:induction false} DigitRunIsDigits(s: string)
    ensures AllDigits(s[..DigitRun(s)])
  {
    if s != "" && IsDigit(s[0]) {
      DigitRunIsDigits(s[1..]);
      assert s[..DigitRun(s)] == [s[0]] + s[1..][..DigitRun(s[1..])];
    }
  }

  lemma {:induction false} DigitRunIs(digits: string, rest: string)
    requires AllDigits(digits) && (rest == "" || !IsDigit(rest[0]))
    ensures DigitRun(digits + rest) == |digits|
  {
    if digits != "" {
      DigitRunIs(digits[1..], rest);
      assert (digits + rest)[1..] == digits[1..] + rest;
    } else {
      assert digits + rest == rest;
    }
  }

  // ---------------------------------------------------------------- hexadecimal digits

  function LowerHex(d: nat): char
    requires d < 16
  {
    if d < 10 then ('0' as int + d) as char else ('a' as int + d - 10) as char
  }

  function UpperHex(d: nat): char
    requires d < 16
  {
    if d < 10 then ('0' as int + d) as char else ('A' as int + d - 10) as char
  }

  /** The value of a digit of either case, or -1. */
  function HexValue(c: char): (d: int)
    ensures -1 <= d < 16
  {
    if '0' <= c <= '9' then c as int - '0' as int
    else if 'a' <= c <= 'f' then c as int - 'a' as int + 10
    else if 'A' <= c <= 'F' then c as int - 'A' as int + 10
    else -1
  }

  lemma HexReadsBack(d: nat)
    requires d < 16
    ensures HexValue(LowerHex(d)) == d && HexValue(UpperHex(d)) == d
  {
  }

  // ---------------------------------------------------------------- cutting at a character

  /** Position of the first `c`, or the length of `s` when there is none. */
  function IndexOf(s: string, c: char): (i: nat)
    ensures i <= |s| && (i < |s| ==> s[i] == c) && c !in s[..i]
  {
    if s == "" || s[0] == c then 0
    else
      var i := 1 + IndexOf(s[1..], c);
      assert s[..i] == [s[0]] + s[1..][..i - 1];
      i
  }

  lemma {:induction false} IndexOfPrefix(a: string, c: char, rest: string)
    requires c !in a
    ensures IndexOf(a + [c] + rest, c) == |a|
  {
    var s := a + [c] + rest;
    if a != "" {
      assert a[0] in a;
      assert s[1..] == a[1..] + [c] + rest;
      IndexOfPrefix(a[1..], c, rest);
    }
  }

  function Split(s: string, c: char): (parts: seq<string>)
    ensures parts != []
    decreases |s|
  {
    var i := IndexOf(s, c);
    if i == |s| then [s] else [s[..i]] + Split(s[i + 1..], c)
  }

  /** One unfolding of Split. */
  lemma SplitStep(s: string, c: char)
    ensures c !in s ==> Split(s, c) == [s]
    ensures c in s ==>
              var i := IndexOf(s, c);
              i < |s| && s == s[..i] + [c] + s[i + 1..] && Split(s, c) == [s[..i]] + Split(s[i + 1..], c)
  {
    hide IndexOf;
    var i := IndexOf(s, c);
    if i == |s| {
      assert s[..i] == s;
    } else {
      TakenApart(s, i);
    }
  }

  lemma TakenApart(s: string, i: nat)
    requires i < |s|
    ensures s == s[..i] + [s[i]] + s[i + 1..] && s[i] in s
  {}

  lemma SplitFirst(a: string, c: char, rest: string)
    requires c !in a
    ensures Split(a + [c] + rest, c) == [a] + Split(rest, c)
  {
    var s := a + [c] + rest;
    IndexOfPrefix(a, c, rest);
    assert s[..|a|] == a && s[|a| + 1..] == rest;
  }

  function Join(parts: seq<string>, c: char): string {
    if |parts| == 0 then "" else if |parts| == 1 then parts[0] else parts[0] + [c] + Join(parts[1..], c)
  }

  /** Splitting undoes joining when no part holds the separator. */
  lemma {:induction false} SplitJoin(parts: seq<string>, c: char)
    requires parts != [] && forall p :: p in parts ==> c !in p
    ensures Split(Join(parts, c), c) == parts
  {
    assert parts[0] in parts;
    if |parts| == 1 {
      assert IndexOf(parts[0], c) == |parts[0]|;
    } else {
      var s := Join(parts, c);
      IndexOfPrefix(parts[0], c, Join(parts[1..], c));
      assert s[|parts[0]| + 1..] == Join(parts[1..], c);
      assert s[..|parts[0]|] == parts[0];
      SplitJoin(parts[1..], c);
    }
  }

  lemma {:induction false} SplitConcat(a: string, c: char, b: string)
    ensures Split(a + [c] + b, c) == Split(a, c) + Split(b, c)
    decreases |a|
  {
    hide Split, IndexOf;
    SplitStep(a, c);
    if c !in a {
      SplitFirst(a, c, b);
    } else {
      var i := IndexOf(a, c);
      var line, rest := a[..i], a[i + 1..];
      SplitConcat(rest, c, b);
      SplitFirst(line, c, rest + [c] + b);
      assert a + [c] + b == line + [c] + (rest + [c] + b);
    }
  }

  /** Joined texts split into as many parts, unless one of them holds the separator: then into more. */
  lemma {:induction false} SplitJoinCounts(parts: seq<string>, c: char)
    requires parts != []
    ensures |Split(Join(parts, c), c)| >= |parts|
    ensures |Split(Join(parts, c), c)| == |parts| <==> forall p :: p in parts ==> c !in p
    ensures (forall p :: p in parts ==> c !in p) ==> Split(Join(parts, c), c) == parts
  {
    hide Split;
    if forall p :: p in parts ==> c !in p {
      SplitJoin(parts, c);
    } else {
      SplitStep(parts[0], c);
      if |parts| > 1 {
        SplitJoinCounts(parts[1..], c);
        SplitConcat(parts[0], c, Join(parts[1..], c));
        assert parts == [parts[0]] + parts[1..];
      }
    }
  }

  /** Joining undoes splitting, for every text. */
  lemma {:induction false} JoinSplit(s: string, c: char)
    ensures Join(Split(s, c), c) == s
    decreases |s|
  {
    hide Split, IndexOf;
    SplitStep(s, c);
    if c in s {
      var i := IndexOf(s, c);
      JoinSplit(s[i + 1..], c);
      var parts := Split(s, c);
      assert parts[1..] == Split(s[i + 1..], c);
    }
  }
}
