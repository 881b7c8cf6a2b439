/**
What the panel finds in the texts of a configuration's sections, said by what the texts spell: which
configurations can be printed, and which outbounds a section lists, with which tags and contents
(internal/xray/hot_diff.go:319-361). Each outbound is taken out of the text as it stands there, and
decoded on its own.
*/
module SectionTexts {
  import opened Text
  import opened Json
  import opened JsonCanonical
  import opened JsonLayout
  import opened TagDiff
  import opened HotDiff
  import opened HotApply
  import opened HotRuns

  // ---------------------------------------------------------------- text in front of text

  lemma {:induction false} CharsAppend(xs: seq<Spelled>, a: string, b: string)
    ensures PutChars(xs, a + b) == PutChars(xs, a) + b
  {
    hide CharText;
    if xs != [] {
      CharsAppend(xs[1..], a, b);
      Associative(CharText(xs[0]), PutChars(xs[1..], a), b);
    }
  }

  lemma {:induction false} LayoutAppends(l: Layout, a: string, b: string)
    ensures Put(l, a + b) == Put(l, a) + b
    decreases l, 1
  {
    hide PutChars, PutSlots, PutMembers, PutNumeral;
    match l
    case LNumber(n) =>
      PutNumeralSplits(n, a + b);
      PutNumeralSplits(n, a);
      Associative(PutNumeral(n, ""), a, b);
    case LStr(chars) =>
      CharsAppend(chars, "\"" + a, b);
      Associative("\"", a, b);
      Associative("\"", PutChars(chars, "\"" + a), b);
    case LArray(slots, inside) =>
      if slots != [] {
        SlotsAppend(slots, a, b);
        Associative("[", PutSlots(slots, a), b);
      }
    case LObject(members, inside) =>
      if members != [] {
        MembersAppend(members, a, b);
        Associative("{", PutMembers(members, a), b);
      }
    case _ =>
  }

  lemma {:induction false} SlotsAppend(slots: seq<Slot>, a: string, b: string)
    ensures PutSlots(slots, a + b) == PutSlots(slots, a) + b
    decreases slots, 0
  {
    hide Put, PutSlots;
    if slots == [] {
      NoSlots(a + b);
      NoSlots(a);
    } else {
      var first := slots[0];
      FirstSlot(slots, a + b);
      FirstSlot(slots, a);
      var tail := if |slots| == 1 then "]" + a else "," + PutSlots(slots[1..], a);
      var long := if |slots| == 1 then "]" + (a + b) else "," + PutSlots(slots[1..], a + b);
      if |slots| > 1 {
        SlotsAppend(slots[1..], a, b);
        Associative(",", PutSlots(slots[1..], a), b);
      } else {
        Associative("]", a, b);
      }
      assert long == tail + b;
      Associative(first.after, tail, b);
      LayoutAppends(first.item, first.after + tail, b);
      Associative(first.before, Put(first.item, first.after + tail), b);
    }
  }

  lemma NoSlots(rest: string)
    ensures PutSlots([], rest) == rest && PutMembers([], rest) == rest
  {
  }

  lemma {:induction false} MembersAppend(members: seq<Member>, a: string, b: string)
    ensures PutMembers(members, a + b) == PutMembers(members, a) + b
    decreases members, 0
  {
    hide Put, PutMembers, PutKeyed;
    if members == [] {
      NoSlots(a + b);
      NoSlots(a);
    } else {
      var first := members[0];
      FirstMember(members, a + b);
      FirstMember(members, a);
      var tail := if |members| == 1 then "}" + a else "," + PutMembers(members[1..], a);
      var long := if |members| == 1 then "}" + (a + b) else "," + PutMembers(members[1..], a + b);
      if |members| > 1 {
        MembersAppend(members[1..], a, b);
        Associative(",", PutMembers(members[1..], a), b);
      } else {
        Associative("}", a, b);
      }
      assert long == tail + b;
      Associative(first.after, tail, b);
      LayoutAppends(first.item, first.after + tail, b);
      KeyedAppends(first, tail, b);
      Associative(first.before, PutKeyed(first, tail), b);
    }
  }

  lemma KeyedAppends(m: Member, tail: string, b: string)
    requires Put(m.item, m.after + (tail + b)) == Put(m.item, m.after + tail) + b
    ensures PutKeyed(m, tail + b) == PutKeyed(m, tail) + b
  {
    hide Put, PutChars;
    var value := Put(m.item, m.after + tail);
    Associative(m.afterColon, value, b);
    Associative(":", m.afterColon + value, b);
    Associative(m.beforeColon, ":" + (m.afterColon + value), b);
    Associative("\"", m.beforeColon + (":" + (m.afterColon + value)), b);
    CharsAppend(m.key, "\"" + (m.beforeColon + (":" + (m.afterColon + value))), b);
    Associative("\"", PutChars(m.key, "\"" + (m.beforeColon + (":" + (m.afterColon + value)))), b);
  }

  // ---------------------------------------------------------------- the elements of an array

  /** Every element's own text spells its value. */
  lemma {:induction false} ElementsSpell(s: string)
    requires ReadElements(s).Some?
    ensures forall e :: e in ReadElements(s).value.0 ==> Spells(e.raw, ValueOf(e.value))
    decreases |s|
  {
    hide ReadValue, Put, Val, ValueOf, Fit, Spells, Extends, SkipSpace;
    var t := SkipSpace(s);
    var (x, rest) := ReadValue(t).value;
    ElementSpells(t);
    var u := SkipSpace(rest);
    if u[0] == ',' {
      ElementsSpell(u[1..]);
    }
  }

  lemma ElementSpells(t: string)
    requires ReadValue(t).Some?
    ensures Spells(t[..|t| - |ReadValue(t).value.1|], ValueOf(ReadValue(t).value.0))
  {
    hide ReadValue, Put, Val, ValueOf, Fit, Extends;
    var rest := ReadValue(t).value.1;
    var before, l := ReadIsLayout(t);
    LayoutAppends(l, "", rest);
    assert "" + rest == rest;
    Associative(before, Put(l, ""), rest);
    assert t[..|t| - |rest|] == before + Put(l, "");
    assert White("");
  }

  lemma {:induction false} ItemsAre(es: seq<Element>, i: nat)
    requires i < |es|
    ensures |ItemsOf(es)| == |es| && ItemsOf(es)[i] == ValueOf(es[i].value)
  {
    hide ValueOf;
    if i > 0 {
      ItemsAre(es[1..], i - 1);
    } else if |es| > 1 {
      ItemsAre(es[1..], 0);
    }
  }

  /** A section is a list of outbounds exactly if it is empty, or spells null or an array; its elements spell those of the array. */
  lemma ElementsExactly(raw: string)
    ensures OutboundElements(raw).Some? <==> raw == "" || exists v: Value :: Spells(raw, v) && (v.Null? || v.Array?)
    ensures Spells(raw, Null) ==> OutboundElements(raw) == Some([])
    ensures forall vs: seq<Value> :: Spells(raw, Array(vs)) ==>
              && OutboundElements(raw).Some? && |OutboundElements(raw).value| == |vs|
              && forall i :: 0 <= i < |vs| ==> Spells(OutboundElements(raw).value[i], vs[i])
  {
    hide Spells, Unmarshal, ReadElements;
    forall v: Value ensures Spells(raw, v) <==> Unmarshal(raw).Some? && ValueOf(Unmarshal(raw).value) == v {
      UnmarshalsExactly(raw, v);
    }
    if Unmarshal(raw).Some? && Unmarshal(raw).value.SArray? {
      var es := Unmarshal(raw).value.elements;
      ArrayElements(raw);
      forall i | 0 <= i < |es| ensures |ItemsOf(es)| == |es| && Spells(es[i].raw, ItemsOf(es)[i]) {
        ItemsAre(es, i);
        assert es[i] in es;
      }
      assert |ItemsOf(es)| == |es|;
    }
    if Unmarshal(raw).Some? {
      assert Spells(raw, ValueOf(Unmarshal(raw).value));
    }
    NoText();
  }

  lemma NoText()
    ensures Unmarshal("").None?
  {
  }

  lemma ArrayElements(raw: string)
    requires Unmarshal(raw).Some? && Unmarshal(raw).value.SArray?
    ensures forall e :: e in Unmarshal(raw).value.elements ==> Spells(e.raw, ValueOf(e.value))
  {
    hide ReadElements, ReadFields, ReadString, NumberLength, SkipSpace, Spells, ValueOf;
    var t := SkipSpace(raw);
    var u := SkipSpace(t[1..]);
    if t[0] == '[' && !(u != "" && u[0] == ']') {
      ElementsSpell(u);
    }
  }

  // ---------------------------------------------------------------- tags

  /** The tag of a value: that of the only member that can be it, empty for null, none of anything but an object. */
  ghost predicate HasTag(v: Value, tag: Option<string>) {
    match v
    case Null => tag == Some("")
    case Object(m) => TagOfMembers(m, tag)
    case _ => tag == None
  }

  /** No key but one is the tag, in whatever case. */
  predicate OneTag(text: string) {
    Unmarshal(text).Some? && Unmarshal(text).value.SObject? ==> TagFields(Unmarshal(text).value.fields) <= 1
  }

  lemma TagExactly(text: string, v: Value)
    requires Spells(text, v) && OneTag(text)
    ensures HasTag(v, UnmarshalTag(text))
  {
    hide Spells, Unmarshal, TagOfMembers;
    UnmarshalsExactly(text, v);
    var x := Unmarshal(text).value;
    if x.SObject? {
      OneTagField(x.fields);
    }
  }

  lemma TagIsOne(v: Value, a: Option<string>, b: Option<string>)
    requires HasTag(v, a) && HasTag(v, b)
    ensures a == b
  {
    if v.Object? && exists k :: k in v.members && IsTagKey(k) {
      var k :| k in v.members && IsTagKey(k);
    }
  }

  lemma SpelledMeaning(text: string, v: Value)
    requires Spells(text, v)
    ensures MeaningOf(text) == if v == Null then Nothing else Means(v)
  {
    hide Spells, ReadValue;
    UnmarshalsExactly(text, v);
    if text == "" {
      NoValueInNothing();
    }
  }

  lemma {:induction false} EntriesExactly(raws: seq<string>, vs: seq<Value>)
    requires |raws| == |vs| && forall i :: 0 <= i < |vs| ==> Spells(raws[i], vs[i]) && OneTag(raws[i])
    ensures OutboundEntries(raws).Some? <==> forall i :: 0 <= i < |vs| ==> !HasTag(vs[i], None)
    ensures OutboundEntries(raws).Some? ==> forall i :: 0 <= i < |vs| ==>
              var e := OutboundEntries(raws).value[i];
              HasTag(vs[i], Some(e.tag)) && e.content == if vs[i] == Null then Nothing else Means(vs[i])
  {
    hide Spells, OneTag, UnmarshalTag, MeaningOf, HasTag;
    if vs != [] {
      var n := |vs| - 1;
      EntriesExactly(raws[..n], vs[..n]);
      assert forall i :: 0 <= i < n ==> vs[..n][i] == vs[i];
      TagExactly(raws[n], vs[n]);
      SpelledMeaning(raws[n], vs[n]);
      if HasTag(vs[n], None) {
        TagIsOne(vs[n], UnmarshalTag(raws[n]), None);
      }
    }
  }

  /**
  The outbounds of a section that spells an array: there are as many entries as values, each with the tag
  and the content of its value; or no entries, exactly if a value has no readable tag.
  */
  lemma OutboundsExactly(raw: string, vs: seq<Value>)
    requires Spells(raw, Array(vs))
    requires forall text :: text in OutboundElements(raw).GetOr([]) ==> OneTag(text)
    ensures Outbounds(raw).Some? <==> forall i :: 0 <= i < |vs| ==> !HasTag(vs[i], None)
    ensures Outbounds(raw).Some? ==> |Outbounds(raw).value| == |vs|
    ensures Outbounds(raw).Some? ==> forall i :: 0 <= i < |vs| ==>
              var e := Outbounds(raw).value[i];
              HasTag(vs[i], Some(e.tag)) && e.content == if vs[i] == Null then Nothing else Means(vs[i])
  {
    hide Spells, OneTag, OutboundElements, HasTag, OutboundEntries;
    ElementsExactly(raw);
    EntriesExactly(OutboundElements(raw).value, vs);
  }

  // ---------------------------------------------------------------- what can be printed

  /** A section that is absent or one whole value. */
  ghost predicate Whole(raw: string) { raw == "" || exists v: Value :: Spells(raw, v) }

  lemma ValidExactly(raw: string)
    ensures ValidRaw(raw) <==> Whole(raw)
  {
    hide Spells, Unmarshal;
    forall v: Value ensures Spells(raw, v) <==> Unmarshal(raw).Some? && ValueOf(Unmarshal(raw).value) == v {
      UnmarshalsExactly(raw, v);
    }
    if Unmarshal(raw).Some? {
      assert Spells(raw, ValueOf(Unmarshal(raw).value));
    }
  }

  /** An inbound can be marshalled exactly if each of its four sections is absent or one whole value. */
  lemma MarshalsExactly(ib: InboundConfig)
    ensures Marshals(ib) <==> Whole(ib.listen) && Whole(ib.settings) && Whole(ib.streamSettings) && Whole(ib.sniffing)
  {
    hide Whole, ValidRaw;
    ValidExactly(ib.listen);
    ValidExactly(ib.settings);
    ValidExactly(ib.streamSettings);
    ValidExactly(ib.sniffing);
  }

  /** A configuration can be printed exactly if every section of it and of its inbounds is absent or one whole value. */
  lemma PrintableExactly(cfg: Config)
    ensures Printable(cfg) <==>
              && Whole(cfg.log) && Whole(cfg.router) && Whole(cfg.dns) && Whole(cfg.outbounds) && Whole(cfg.transport)
              && Whole(cfg.policy) && Whole(cfg.api) && Whole(cfg.stats) && Whole(cfg.reverse) && Whole(cfg.fakeDns)
              && Whole(cfg.observatory) && Whole(cfg.burstObservatory) && Whole(cfg.metrics) && Whole(cfg.geodata)
              && forall ib :: ib in cfg.inbounds ==>
                   Whole(ib.listen) && Whole(ib.settings) && Whole(ib.streamSettings) && Whole(ib.sniffing)
  {
    hide Whole, ValidRaw, Marshals, StaticSections;
    ValidExactly(cfg.router);
    ValidExactly(cfg.outbounds);
    StaticsValid(cfg);
    forall ib | ib in cfg.inbounds
      ensures Marshals(ib) <==> Whole(ib.listen) && Whole(ib.settings) && Whole(ib.streamSettings) && Whole(ib.sniffing)
    {
      MarshalsExactly(ib);
    }
    assert (forall i :: 0 <= i < |cfg.inbounds| ==> Marshals(cfg.inbounds[i])) <==> forall ib :: ib in cfg.inbounds ==> Marshals(ib);
  }

  lemma StaticsValid(cfg: Config)
    ensures (forall i :: 0 <= i < 12 ==> ValidRaw(StaticSections(cfg)[i]))
            <==> && Whole(cfg.log) && Whole(cfg.dns) && Whole(cfg.transport) && Whole(cfg.policy) && Whole(cfg.api)
                 && Whole(cfg.stats) && Whole(cfg.reverse) && Whole(cfg.fakeDns) && Whole(cfg.observatory)
                 && Whole(cfg.burstObservatory) && Whole(cfg.metrics) && Whole(cfg.geodata)
  {
    hide Whole, ValidRaw;
    var s := StaticSections(cfg);
    assert s[0] == cfg.log && s[1] == cfg.dns && s[2] == cfg.transport && s[3] == cfg.policy && s[4] == cfg.api
           && s[5] == cfg.stats && s[6] == cfg.reverse && s[7] == cfg.fakeDns && s[8] == cfg.observatory
           && s[9] == cfg.burstObservatory && s[10] == cfg.metrics && s[11] == cfg.geodata;
    forall i | 0 <= i < 12 ensures ValidRaw(s[i]) <==> Whole(s[i]) {
      ValidExactly(s[i]);
    }
  }
}
