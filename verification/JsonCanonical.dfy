/**
`canonicalJSON` and `rawEqualNormalized` (internal/xray/hot_diff.go). The printer is shown
injective by reading its output back with the reader of module Json, so the byte comparison
of canonical texts decides equality of the values the two raw sections stand for.
*/
module JsonCanonical {
  import opened Text
  import opened Json

  // ---------------------------------------------------------------- values a reader can produce

  /** Every number in the tree is spelled as section 6 of RFC 8259 allows. */
  predicate WellFormed(v: Value) {
    match v
    case Number(t) => ValidNumber(t)
    case Array(items) => forall i :: 0 <= i < |items| ==> WellFormed(items[i])
    case Object(m) => forall k :: k in m ==> WellFormed(m[k])
    case _ => true
  }

  lemma {:induction false} DigitRunWhole(s: string, n: nat)
    requires n == DigitRun(s)
    ensures DigitRun(s[..n]) == n
  {
    if n > 0 {
      DigitRunWhole(s[1..], n - 1);
      assert s[..n][1..] == s[1..][..n - 1];
    }
  }

  lemma TakeDrop(s: string, n: nat, k: nat)
    requires k <= n <= |s|
    ensures s[..n][k..] == s[k..][..n - k]
  {}

  lemma ExponentWhole(s: string, n: nat)
    requires ExponentLength(s) == Some(n)
    ensures ExponentLength(s[..n]) == Some(n)
  {
    if n > 0 {
      var t := s[1..];
      var sign := SignLength(t);
      DigitRunWhole(t[sign..], n - 1 - sign);
      TakeDrop(s, n, 1);
      TakeDrop(t, n - 1, sign);
      assert SignLength(t[..n - 1]) == sign;
    }
  }

  lemma FractionWhole(s: string, n: nat)
    requires FractionLength(s) == Some(n)
    ensures FractionLength(s[..n]) == Some(n)
  {
    if n > 0 {
      DigitRunWhole(s[1..], n - 1);
      TakeDrop(s, n, 1);
    }
  }

  /** A fraction followed by an exponent is read the same once the text is cut after both. */
  lemma TailWhole(s: string, n: nat)
    requires TailLength(s) == Some(n)
    ensures TailLength(s[..n]) == Some(n)
  {
    hide DigitRun, SignLength;
    var f := FractionLength(s).value;
    var e := n - f;
    FractionWhole(s, f);
    ExponentWhole(s[f..], e);
    TakeDrop(s, n, f);
    assert s[..n] == s[..f] + s[f..][..e];
    if e == 0 {
      assert s[..n] == s[..f];
    } else {
      FractionBeforeExponent(s[..f], s[f..][..e]);
    }
  }

  lemma FractionBeforeExponent(f: string, e: string)
    requires FractionLength(f) == Some(|f|)
    requires e != "" && (e[0] == 'e' || e[0] == 'E')
    ensures FractionLength(f + e) == Some(|f|)
  {
    if f == "" {
      assert f + e == e;
    } else {
      DropLeft(f, e, 1);
      DigitRunLocal(f[1..], e);
    }
  }

  lemma TailStarts(s: string, n: nat)
    requires TailLength(s) == Some(n) && n > 0
    ensures s != "" && !IsDigit(s[0])
  {}

  lemma UnsignedWhole(s: string, n: nat)
    requires UnsignedLength(s) == Some(n)
    ensures UnsignedLength(s[..n]) == Some(n)
  {
    hide TailLength;
    var whole := IntLength(s);
    var tail := n - whole;
    TailWhole(s[whole..], tail);
    TakeDrop(s, n, whole);
    assert IntLength(s[..n]) == whole by {
      if s[0] != '0' {
        DigitRunWhole(s, whole);
        assert s[..n] == s[..whole] + s[whole..][..tail];
        if tail > 0 {
          TailStarts(s[whole..], tail);
          DigitRunLocal(s[..whole], s[whole..][..tail]);
        } else {
          assert s[..n] == s[..whole];
        }
      }
    }
  }

  lemma NumberWhole(s: string, n: nat)
    requires NumberLength(s) == Some(n)
    ensures ValidNumber(s[..n])
  {
    hide UnsignedLength;
    var minus := if s != "" && s[0] == '-' then 1 else 0;
    UnsignedWhole(s[minus..], n - minus);
    TakeDrop(s, n, minus);
  }

  lemma {:induction false} ReadWellFormed(s: string)
    ensures ReadValue(s).Some? ==> WellFormed(ValueOf(ReadValue(s).value.0))
    decreases |s|, 0
  {
    if ReadValue(s).Some? {
      var t := SkipSpace(s);
      match t[0]
      case '{' =>
        var u := SkipSpace(t[1..]);
        if !(u != "" && u[0] == '}') { ReadFieldsWellFormed(u); }
      case '[' =>
        var u := SkipSpace(t[1..]);
        if !(u != "" && u[0] == ']') { ReadElementsWellFormed(u); }
      case '"' =>
      case 'n' =>
      case 't' =>
      case 'f' =>
      case _ => NumberWhole(t, NumberLength(t).value);
    }
  }

  lemma {:induction false} ReadElementsWellFormed(s: string)
    ensures ReadElements(s).Some? ==>
              forall i :: 0 <= i < |ItemsOf(ReadElements(s).value.0)| ==> WellFormed(ItemsOf(ReadElements(s).value.0)[i])
    decreases |s|, 1
  {
    var t := SkipSpace(s);
    ReadWellFormed(t);
    if ReadElements(s).Some? {
      var u := SkipSpace(ReadValue(t).value.1);
      var es := ReadElements(s).value.0;
      if u[0] == ',' {
        ReadElementsWellFormed(u[1..]);
        assert es[1..] == ReadElements(u[1..]).value.0;
      }
    }
  }

  lemma {:induction false} ReadFieldsWellFormed(s: string)
    ensures ReadFields(s).Some? ==>
              forall k :: k in MembersOf(ReadFields(s).value.0) ==> WellFormed(MembersOf(ReadFields(s).value.0)[k])
    decreases |s|, 1
  {
    if ReadFields(s).Some? {
      var t := SkipSpace(s);
      var colon := SkipSpace(ReadString(t[1..]).value.1);
      ReadWellFormed(colon[1..]);
      var u := SkipSpace(ReadValue(colon[1..]).value.1);
      var fs := ReadFields(s).value.0;
      if u[0] == ',' {
        ReadFieldsWellFormed(u[1..]);
        assert fs[1..] == ReadFields(u[1..]).value.0;
      }
    }
  }

  // ---------------------------------------------------------------- reading the printer back

  predicate StartsValue(c: char) {
    c == '{' || c == '[' || c == '"' || c == 'n' || c == 't' || c == 'f' || c == '-' || IsDigit(c)
  }

  lemma EncodeStarts(v: Value)
    requires WellFormed(v)
    ensures Encode(v) != "" && StartsValue(Encode(v)[0])
    ensures v.Number? ==> Encode(v)[0] == '-' || IsDigit(Encode(v)[0])
  {}

  lemma NoSpace(s: string)
    requires s != "" && s[0] !in " \t\n\r"
    ensures SkipSpace(s) == s
  {}

  // One step of the reader each.

  lemma ReadArray(u: string, es: seq<Element>, rest: string)
    requires u != "" && StartsValue(u[0]) && ReadElements(u) == Some((es, rest))
    ensures ReadValue("[" + u) == Some((SArray(es), rest))
  {
    hide ReadElements, ReadFields, ReadString, NumberLength;
    NoSpace("[" + u);
    assert ("[" + u)[1..] == u;
    NoSpace(u);
  }

  lemma ReadObject(u: string, fs: seq<Field>, rest: string)
    requires u != "" && u[0] == '"' && ReadFields(u) == Some((fs, rest))
    ensures ReadValue("{" + u) == Some((SObject(fs), rest))
  {
    hide ReadElements, ReadFields, ReadString, NumberLength;
    NoSpace("{" + u);
    assert ("{" + u)[1..] == u;
    NoSpace(u);
  }

  lemma ReadLastElement(head: string, x: Syntax, rest: string)
    requires head != "" && StartsValue(head[0]) && ReadValue(head + ("]" + rest)) == Some((x, "]" + rest))
    ensures ReadElements(head + ("]" + rest)) == Some(([Element(head, x)], rest))
  {
    hide ReadValue;
    var after := "]" + rest;
    NoSpace(head + after);
    assert (head + after)[..|head|] == head;
    NoSpace(after);
    assert after[1..] == rest;
  }

  lemma ReadNextElement(head: string, x: Syntax, tail: string, es: seq<Element>, rest: string)
    requires head != "" && StartsValue(head[0]) && ReadValue(head + ("," + tail)) == Some((x, "," + tail))
    requires ReadElements(tail) == Some((es, rest))
    ensures ReadElements(head + ("," + tail)) == Some(([Element(head, x)] + es, rest))
  {
    hide ReadValue;
    var after := "," + tail;
    NoSpace(head + after);
    assert (head + after)[..|head|] == head;
    NoSpace(after);
    assert after[1..] == tail;
  }

  lemma ReadKey(k: string, body: string, x: Syntax, after: string)
    requires ReadValue(body) == Some((x, after))
    ensures var s := Quote(k) + (":" + body);
            && SkipSpace(s) == s && s[0] == '"'
            && ReadString(s[1..]) == Some((k, ":" + body))
            && SkipSpace(":" + body) == ":" + body && (":" + body)[1..] == body
  {
    hide ReadValue, ReadString, EscapeAll;
    var s := Quote(k) + (":" + body);
    assert s[1..] == EscapeAll(k) + "\"" + (":" + body);
    StringReadBack(k, ":" + body);
  }

  lemma ReadLastField(k: string, body: string, x: Syntax, rest: string)
    requires ReadValue(body) == Some((x, "}" + rest))
    ensures ReadFields(Quote(k) + (":" + body)) == Some(([Field(k, x)], rest))
  {
    hide ReadValue, ReadString, Quote;
    ReadKey(k, body, x, "}" + rest);
    NoSpace("}" + rest);
    assert ("}" + rest)[1..] == rest;
  }

  lemma ReadNextField(k: string, body: string, x: Syntax, tail: string, fs: seq<Field>, rest: string)
    requires ReadValue(body) == Some((x, "," + tail)) && ReadFields(tail) == Some((fs, rest))
    ensures ReadFields(Quote(k) + (":" + body)) == Some(([Field(k, x)] + fs, rest))
  {
    hide ReadValue, ReadString, Quote;
    ReadKey(k, body, x, "," + tail);
    NoSpace("," + tail);
    assert ("," + tail)[1..] == tail;
  }

  lemma ReadLeaf(v: Value, rest: string) returns (x: Syntax)
    requires WellFormed(v) && Delimited(rest)
    requires !(v.Array? && v.items != []) && !(v.Object? && v.members != map[])
    ensures ReadValue(Encode(v) + rest) == Some((x, rest)) && ValueOf(x) == v
  {
    match v
    case Null =>
      x := SNull;
      ReadWord(v, rest);
    case Bool(b) =>
      x := SBool(b);
      ReadWord(v, rest);
    case Number(t) =>
      x := SNumber(t);
      ReadNumberLeaf(v, rest);
    case Str(t) =>
      x := SStr(t);
      ReadStringLeaf(t, rest);
    case Array(_) =>
      ReadEmpty(rest);
      x := SArray([]);
    case Object(_) =>
      ReadEmpty(rest);
      x := SObject([]);
  }

  lemma ReadWord(v: Value, rest: string)
    requires v.Null? || v.Bool?
    ensures ReadValue(Encode(v) + rest) == Some((if v.Null? then SNull else SBool(v.b), rest))
  {
    hide ReadElements, ReadFields, ReadString, NumberLength;
    var s := Encode(v) + rest;
    EncodeStarts(v);
    NoSpace(s);
    assert s[|Encode(v)|..] == rest && Encode(v) <= s;
  }

  lemma ReadNumberLeaf(v: Value, rest: string)
    requires v.Number? && WellFormed(v) && Delimited(rest)
    ensures ReadValue(Encode(v) + rest) == Some((SNumber(v.text), rest))
  {
    hide ReadElements, ReadFields, ReadString;
    var s := v.text + rest;
    EncodeStarts(v);
    NoSpace(s);
    NumberLocal(v.text, rest);
    assert s[..|v.text|] == v.text && s[|v.text|..] == rest;
  }

  lemma ReadStringLeaf(t: string, rest: string)
    ensures ReadValue(Quote(t) + rest) == Some((SStr(t), rest))
  {
    hide ReadElements, ReadFields, ReadString, NumberLength, EscapeAll;
    var s := Quote(t) + rest;
    NoSpace(s);
    StringReadBack(t, rest);
    assert s[1..] == EscapeAll(t) + "\"" + rest;
  }

  lemma ReadEmpty(rest: string)
    ensures ReadValue("[]" + rest) == Some((SArray([]), rest))
    ensures ReadValue("{}" + rest) == Some((SObject([]), rest))
  {
    NoSpace("[]" + rest);
    NoSpace("{}" + rest);
    assert ("[]" + rest)[1..] == "]" + rest && ("{}" + rest)[1..] == "}" + rest;
    NoSpace("]" + rest);
    NoSpace("}" + rest);
    assert ("]" + rest)[1..] == rest && ("}" + rest)[1..] == rest;
  }

  /** Printing then reading returns the same tree and leaves what follows untouched. */
  lemma {:induction false} ReadBack(v: Value, rest: string) returns (x: Syntax)
    requires WellFormed(v) && Delimited(rest)
    ensures ReadValue(Encode(v) + rest) == Some((x, rest)) && ValueOf(x) == v
    decreases v, 3
  {
    hide ReadValue, Encode, ReadElements, EncodeItems;
    if v.Array? && v.items != [] {
      var es := ItemsReadBack(v.items, rest);
      x := SArray(es);
      FullArray(v, es, rest);
    } else if v.Object? && v.members != map[] {
      x := ObjectReadBack(v, rest);
    } else {
      x := ReadLeaf(v, rest);
    }
  }

  lemma {:induction false} ObjectReadBack(v: Value, rest: string) returns (x: Syntax)
    requires v.Object? && v.members != map[] && WellFormed(v)
    ensures ReadValue(Encode(v) + rest) == Some((x, rest)) && ValueOf(x) == v
    decreases v, 2
  {
    hide ReadValue, Encode, ReadFields, Sorted, EncodeMembers, FieldsOf, Quote, WellFormed, MembersOf;
    var ks := Sorted(v.members.Keys);
    SortedOrders(v.members.Keys);
    var fs := MembersReadBack(v, ks, rest);
    x := SObject(fs);
    FieldsGiveMembers(fs, v, ks);
    FullObject(v, fs, rest);
  }

  lemma FullArray(v: Value, es: seq<Element>, rest: string)
    requires v.Array? && v.items != [] && WellFormed(v)
    requires ReadElements(EncodeItems(v.items) + ("]" + rest)) == Some((es, rest))
    ensures ReadValue(Encode(v) + rest) == Some((SArray(es), rest))
  {
    hide ReadValue, ReadElements, Encode, EncodeItems;
    var text := EncodeItems(v.items);
    ArrayText(v);
    ReadArray(text + ("]" + rest), es, rest);
    Regroup3("[", text, "]", rest);
  }

  lemma ArrayText(v: Value)
    requires v.Array? && v.items != [] && WellFormed(v)
    ensures var text := EncodeItems(v.items);
            Encode(v) == "[" + text + "]" && text != "" && StartsValue(text[0])
  {
    EncodeStarts(v.items[0]);
  }

  lemma FullObject(v: Value, fs: seq<Field>, rest: string)
    requires v.Object? && v.members != map[]
    requires var text := EncodeMembers(v, Sorted(v.members.Keys));
             text != "" && text[0] == '"' && ReadFields(text + ("}" + rest)) == Some((fs, rest))
    ensures ReadValue(Encode(v) + rest) == Some((SObject(fs), rest))
  {
    hide ReadValue, ReadFields, Encode, EncodeMembers, Sorted;
    var text := EncodeMembers(v, Sorted(v.members.Keys));
    ReadObject(text + ("}" + rest), fs, rest);
    ObjectText(v);
    Regroup3("{", text, "}", rest);
  }

  lemma ObjectText(v: Value)
    requires v.Object? && v.members != map[]
    ensures Encode(v) == "{" + EncodeMembers(v, Sorted(v.members.Keys)) + "}"
  {
    hide EncodeMembers, Sorted;
  }

  lemma {:induction false} ItemsReadBack(items: seq<Value>, rest: string) returns (es: seq<Element>)
    requires items != [] && forall i :: 0 <= i < |items| ==> WellFormed(items[i])
    ensures ReadElements(EncodeItems(items) + ("]" + rest)) == Some((es, rest)) && ItemsOf(es) == items
    decreases items, 1
  {
    if |items| == 1 {
      var x := ReadBack(items[0], "]" + rest);
      es := LastItem(items, x, rest);
    } else {
      var more := ItemsReadBack(items[1..], rest);
      var x := ReadBack(items[0], "," + (EncodeItems(items[1..]) + ("]" + rest)));
      es := NextItem(items, x, more, rest);
    }
  }

  lemma LastItem(items: seq<Value>, x: Syntax, rest: string) returns (es: seq<Element>)
    requires |items| == 1 && WellFormed(items[0]) && ValueOf(x) == items[0]
    requires ReadValue(Encode(items[0]) + ("]" + rest)) == Some((x, "]" + rest))
    ensures ReadElements(EncodeItems(items) + ("]" + rest)) == Some((es, rest)) && ItemsOf(es) == items
  {
    hide ReadValue, ReadElements, Encode, WellFormed;
    EncodeStarts(items[0]);
    ReadLastElement(Encode(items[0]), x, rest);
    es := [Element(Encode(items[0]), x)];
  }

  lemma NextItem(items: seq<Value>, x: Syntax, more: seq<Element>, rest: string) returns (es: seq<Element>)
    requires |items| > 1 && WellFormed(items[0]) && ValueOf(x) == items[0] && ItemsOf(more) == items[1..]
    requires var tail := EncodeItems(items[1..]) + ("]" + rest);
             ReadValue(Encode(items[0]) + ("," + tail)) == Some((x, "," + tail)) && ReadElements(tail) == Some((more, rest))
    ensures ReadElements(EncodeItems(items) + ("]" + rest)) == Some((es, rest)) && ItemsOf(es) == items
  {
    hide ReadValue, ReadElements, Encode, EncodeItems, WellFormed;
    EncodeStarts(items[0]);
    ItemsText(items, rest);
    ReadNextElement(Encode(items[0]), x, EncodeItems(items[1..]) + ("]" + rest), more, rest);
    es := [Element(Encode(items[0]), x)] + more;
    assert es[1..] == more;
  }

  // Regrouping of concatenations, on plain strings so that no other definition is in the way.

  lemma Regroup3(a: string, b: string, c: string, d: string)
    ensures (a + b + c) + d == a + (b + (c + d))
  {}

  lemma Regroup5(a: string, b: string, c: string, d: string, e: string, f: string)
    ensures (a + b + c + d + e) + f == a + (b + (c + (d + (e + f))))
  {
    Regroup3(a, b, c, d);
    Regroup3(a + b + c, d, e, f);
    Regroup3(a, b, c, d + (e + f));
  }

  lemma ItemsText(items: seq<Value>, rest: string)
    requires |items| > 1
    ensures EncodeItems(items) + ("]" + rest) == Encode(items[0]) + ("," + (EncodeItems(items[1..]) + ("]" + rest)))
  {
    Regroup3(Encode(items[0]), ",", EncodeItems(items[1..]), "]" + rest);
  }

  /** The fields of `ks` in this order. */
  predicate FieldsOf(fs: seq<Field>, v: Value, ks: seq<string>)
    requires v.Object? && forall k :: k in ks ==> k in v.members
  {
    |fs| == |ks| && forall i :: 0 <= i < |ks| ==> fs[i].key == ks[i] && ValueOf(fs[i].value) == v.members[ks[i]]
  }

  lemma {:induction false} MembersReadBack(v: Value, ks: seq<string>, rest: string) returns (fs: seq<Field>)
    requires v.Object? && WellFormed(v) && ks != [] && forall k :: k in ks ==> k in v.members
    ensures EncodeMembers(v, ks) != "" && EncodeMembers(v, ks)[0] == '"'
    ensures ReadFields(EncodeMembers(v, ks) + ("}" + rest)) == Some((fs, rest))
    ensures FieldsOf(fs, v, ks)
    decreases v, 1, ks
  {
    if |ks| == 1 {
      var x := ReadBack(v.members[ks[0]], "}" + rest);
      fs := LastMember(v, ks, x, rest);
    } else {
      var more := MembersReadBack(v, ks[1..], rest);
      var x := ReadBack(v.members[ks[0]], "," + (EncodeMembers(v, ks[1..]) + ("}" + rest)));
      fs := NextMember(v, ks, x, more, rest);
    }
  }

  lemma LastMember(v: Value, ks: seq<string>, x: Syntax, rest: string) returns (fs: seq<Field>)
    requires v.Object? && |ks| == 1 && ks[0] in v.members && ValueOf(x) == v.members[ks[0]]
    requires forall k :: k in ks ==> k in v.members
    requires ReadValue(Encode(v.members[ks[0]]) + ("}" + rest)) == Some((x, "}" + rest))
    ensures EncodeMembers(v, ks) != "" && EncodeMembers(v, ks)[0] == '"'
    ensures ReadFields(EncodeMembers(v, ks) + ("}" + rest)) == Some((fs, rest))
    ensures FieldsOf(fs, v, ks)
  {
    hide ReadFields, ReadValue, EncodeMembers, Encode, Quote, MembersOf;
    var k := ks[0];
    MembersText(v, ks, rest);
    ReadLastField(k, Encode(v.members[k]) + ("}" + rest), x, rest);
    fs := [Field(k, x)];
  }

  /** Fields read in any order build the members they stand for. */
  lemma {:induction false} FieldsGiveMembers(fs: seq<Field>, v: Value, ks: seq<string>)
    requires v.Object? && (forall k :: k in ks ==> k in v.members) && FieldsOf(fs, v, ks)
    ensures MembersOf(fs) == map k | k in ks :: v.members[k]
  {
    hide ValueOf;
    if ks != [] {
      assert forall i :: 0 <= i < |ks| - 1 ==> fs[1..][i] == fs[i + 1] && ks[1..][i] == ks[i + 1];
      assert fs[0].key == ks[0] && ValueOf(fs[0].value) == v.members[ks[0]];
      assert MembersOf(fs) == map[fs[0].key := ValueOf(fs[0].value)] + MembersOf(fs[1..]);
      FieldsGiveMembers(fs[1..], v, ks[1..]);
      hide FieldsOf, MembersOf;
      FirstAndRest(v.members, ks);
    }
  }

  lemma FirstAndRest(members: map<string, Value>, ks: seq<string>)
    requires ks != [] && forall k :: k in ks ==> k in members
    ensures ks[0] in ks && forall k :: k in ks[1..] ==> k in ks
    ensures map[ks[0] := members[ks[0]]] + (map k | k in ks[1..] :: members[k]) == map k | k in ks :: members[k]
  {
    assert ks == [ks[0]] + ks[1..];
  }

  lemma NextMember(v: Value, ks: seq<string>, x: Syntax, more: seq<Field>, rest: string) returns (fs: seq<Field>)
    requires v.Object? && |ks| > 1 && (forall k :: k in ks ==> k in v.members) && ValueOf(x) == v.members[ks[0]]
    requires FieldsOf(more, v, ks[1..])
    requires var tail := EncodeMembers(v, ks[1..]) + ("}" + rest);
             ReadValue(Encode(v.members[ks[0]]) + ("," + tail)) == Some((x, "," + tail)) && ReadFields(tail) == Some((more, rest))
    ensures EncodeMembers(v, ks) != "" && EncodeMembers(v, ks)[0] == '"'
    ensures ReadFields(EncodeMembers(v, ks) + ("}" + rest)) == Some((fs, rest))
    ensures FieldsOf(fs, v, ks)
  {
    hide ReadFields, ReadValue, EncodeMembers, Encode, Quote, MembersOf, WellFormed;
    var k, tail := ks[0], EncodeMembers(v, ks[1..]) + ("}" + rest);
    MembersText(v, ks, rest);
    ReadNextField(k, Encode(v.members[k]) + ("," + tail), x, tail, more, rest);
    fs := [Field(k, x)] + more;
    assert forall i :: 0 < i < |ks| ==> fs[i] == more[i - 1] && ks[i] == ks[1..][i - 1];
  }

  lemma MembersText(v: Value, ks: seq<string>, rest: string)
    requires v.Object? && ks != [] && ks[0] in v.members
    ensures EncodeMembers(v, ks) != "" && EncodeMembers(v, ks)[0] == '"'
    ensures |ks| == 1 ==>
              EncodeMembers(v, ks) + ("}" + rest) == Quote(ks[0]) + (":" + (Encode(v.members[ks[0]]) + ("}" + rest)))
    ensures |ks| > 1 ==>
              EncodeMembers(v, ks) + ("}" + rest)
              == Quote(ks[0]) + (":" + (Encode(v.members[ks[0]]) + ("," + (EncodeMembers(v, ks[1..]) + ("}" + rest)))))
  {
    var key, value := Quote(ks[0]), Encode(v.members[ks[0]]);
    if |ks| == 1 {
      Regroup3(key, ":", value, "}" + rest);
    } else {
      Regroup5(key, ":", value, ",", EncodeMembers(v, ks[1..]), "}" + rest);
    }
  }

  /** The canonical printer is injective: equal bytes mean the same tree. */
  lemma EncodeInjective(v: Value, w: Value)
    requires WellFormed(v) && WellFormed(w) && Encode(v) == Encode(w)
    ensures v == w
  {
    var x := ReadBack(v, "");
    var y := ReadBack(w, "");
    assert Encode(v) + "" == Encode(v) && Encode(w) + "" == Encode(w);
  }

  // ---------------------------------------------------------------- raw sections

  /** `canonicalJSON`: None is `ok == false`, Some("") the nil of an absent or null section. */
  function CanonicalJson(raw: string): Option<string> {
    if raw == "" then Some("")
    else
      match ReadValue(raw)
      case None => None
      case Some((x, _)) => if ValueOf(x) == Null then Some("") else Some(Encode(ValueOf(x)))
  }

  /** `rawEqualNormalized`. */
  predicate RawEqualNormalized(a: string, b: string) {
    a == b || (CanonicalJson(a).Some? && CanonicalJson(b).Some? && CanonicalJson(a) == CanonicalJson(b))
  }

  /** What a raw section stands for: nothing, a tree, or text no reader accepts. */
  datatype Meaning = Nothing | Means(value: Value) | Garbage(raw: string)

  function MeaningOf(raw: string): Meaning {
    if raw == "" then Nothing
    else
      match ReadValue(raw)
      case None => Garbage(raw)
      case Some((x, _)) => if ValueOf(x) == Null then Nothing else Means(ValueOf(x))
  }

  /**
  The comparison decides equality of meaning: same tree up to member order and spacing,
  same number digits, null the same as absent, unreadable text only equal to itself.
  */
  lemma RawEqualDecidesMeaning(a: string, b: string)
    ensures RawEqualNormalized(a, b) <==> MeaningOf(a) == MeaningOf(b)
  {
    if a != b && MeaningOf(a).Means? && MeaningOf(b).Means? {
      ReadWellFormed(a);
      ReadWellFormed(b);
      if CanonicalJson(a) == CanonicalJson(b) {
        EncodeInjective(MeaningOf(a).value, MeaningOf(b).value);
      }
    }
    if MeaningOf(a).Means? { ReadWellFormed(a); EncodeStarts(MeaningOf(a).value); }
    if MeaningOf(b).Means? { ReadWellFormed(b); EncodeStarts(MeaningOf(b).value); }
  }

  /** Re-encoding a section in canonical form does not change its meaning. */
  lemma CanonicalKeepsMeaning(raw: string)
    requires CanonicalJson(raw).Some?
    ensures MeaningOf(CanonicalJson(raw).value) == MeaningOf(raw)
    ensures CanonicalJson(CanonicalJson(raw).value) == CanonicalJson(raw)
  {
    if MeaningOf(raw).Means? {
      ReadWellFormed(raw);
      var v := MeaningOf(raw).value;
      EncodeStarts(v);
      var x := ReadBack(v, "");
      assert Encode(v) + "" == Encode(v);
    }
  }
}
