/**
Which texts spell a JSON value (sections 2 to 7 of RFC 8259), written down without a reader: white
space between tokens, numbers in their parts, characters in any of their spellings, members in any
order. The reader of module Json accepts exactly these texts, so the section comparison of
internal/xray/hot_diff.go:255-291 is indifferent to layout.
*/
module JsonLayout {
  import opened Text
  import opened Json
  import opened JsonCanonical

  // ---------------------------------------------------------------- layouts

  /** Blank, tab, line feed and carriage return. */
  predicate IsWhite(c: char) { c as int == 0x20 || c as int == 0x09 || c as int == 0x0A || c as int == 0x0D }

  predicate White(s: string) { forall c :: c in s ==> IsWhite(c) }

  /** `fraction` is empty and `exponent` None where a number has none. */
  datatype Numeral = Numeral(negative: bool, whole: string, fraction: string, exponent: Option<Exponent>)
  datatype Exponent = Exponent(letter: char, sign: string, digits: string)

  predicate FitExponent(e: Exponent) {
    (e.letter == 'e' || e.letter == 'E') && (e.sign == "" || e.sign == "+" || e.sign == "-") && e.digits != "" && AllDigits(e.digits)
  }

  predicate FitNumeral(n: Numeral) {
    && (n.whole == "0" || (n.whole != "" && AllDigits(n.whole) && n.whole[0] != '0'))
    && AllDigits(n.fraction)
    && (n.exponent.Some? ==> FitExponent(n.exponent.value))
  }

  function PutExponent(e: Option<Exponent>, rest: string): string {
    match e case None => rest case Some(x) => [x.letter] + (x.sign + (x.digits + rest))
  }

  function PutFraction(fraction: string, rest: string): string {
    if fraction == "" then rest else "." + (fraction + rest)
  }

  /** A number written in front of `rest`; so for the other functions of this name. */
  function PutNumeral(n: Numeral, rest: string): string {
    (if n.negative then "-" else "") + (n.whole + PutFraction(n.fraction, PutExponent(n.exponent, rest)))
  }

  /** A character that would be read as part of the number. */
  predicate Extends(n: Numeral, c: char) {
    || (IsDigit(c) && (n.whole != "0" || n.fraction != "" || n.exponent.Some?))
    || (c == '.' && n.fraction == "" && n.exponent.None?)
    || ((c == 'e' || c == 'E') && n.exponent.None?)
  }

  /** One character of a string: as it is, after a backslash, by its code, or by a surrogate pair. */
  datatype Spelled = Bare(c: char) | Short(letter: char) | Coded(digits: string) | Paired(high: string, low: string)

  predicate IsCode(digits: string) { |digits| == 4 && forall i :: 0 <= i < 4 ==> HexValue(digits[i]) >= 0 }

  function Code(digits: string): (n: nat)
    requires IsCode(digits)
    ensures n < 0x10000
  {
    ((HexValue(digits[0]) * 16 + HexValue(digits[1])) * 16 + HexValue(digits[2])) * 16 + HexValue(digits[3])
  }

  predicate IsHigh(digits: string) { IsCode(digits) && 0xD800 <= Code(digits) <= 0xDBFF }

  predicate IsLow(digits: string) { IsCode(digits) && 0xDC00 <= Code(digits) <= 0xDFFF }

  /** The escapes of one letter. */
  function ShortFor(letter: char): Option<char> {
    if letter == '"' || letter == '\\' || letter == '/' then Some(letter)
    else if letter == 'b' then Some(8 as char)
    else if letter == 'f' then Some(12 as char)
    else if letter == 'n' then Some(10 as char)
    else if letter == 'r' then Some(13 as char)
    else if letter == 't' then Some(9 as char)
    else None
  }

  predicate FitChar(x: Spelled) {
    match x
    case Bare(c) => c as int >= 0x20 && c != '"' && c != '\\'
    case Short(letter) => ShortFor(letter).Some?
    case Coded(digits) => IsCode(digits)
    case Paired(high, low) => IsHigh(high) && IsLow(low)
  }

  /** A lone surrogate stands for the replacement character. */
  function CharOf(x: Spelled): char
    requires FitChar(x)
  {
    match x
    case Bare(c) => c
    case Short(letter) => ShortFor(letter).value
    case Coded(digits) => if 0xD800 <= Code(digits) <= 0xDFFF then 0xFFFD as char else Code(digits) as char
    case Paired(high, low) => (0x10000 + (Code(high) - 0xD800) * 0x400 + (Code(low) - 0xDC00)) as char
  }

  function CharText(x: Spelled): string {
    match x
    case Bare(c) => [c]
    case Short(letter) => ['\\', letter]
    case Coded(digits) => ['\\', 'u'] + digits
    case Paired(high, low) => ['\\', 'u'] + (high + (['\\', 'u'] + low))
  }

  /** A code of a high surrogate and one of a low one behind it are a pair, not two characters. */
  predicate FitChars(xs: seq<Spelled>) {
    xs == [] ||
    (&& FitChar(xs[0]) && FitChars(xs[1..])
     && (|xs| > 1 && xs[0].Coded? && IsHigh(xs[0].digits) ==> !(xs[1].Coded? && IsLow(xs[1].digits))))
  }

  function CharsOf(xs: seq<Spelled>): string
    requires FitChars(xs)
  {
    if xs == [] then "" else [CharOf(xs[0])] + CharsOf(xs[1..])
  }

  function PutChars(xs: seq<Spelled>, rest: string): string {
    if xs == [] then rest else CharText(xs[0]) + PutChars(xs[1..], rest)
  }

  /** A value with the layout of its text; `inside` is the white space of an empty array or object. */
  datatype Layout =
    | LNull
    | LBool(b: bool)
    | LNumber(n: Numeral)
    | LStr(chars: seq<Spelled>)
    | LArray(slots: seq<Slot>, inside: string)
    | LObject(members: seq<Member>, inside: string)
  datatype Slot = Slot(before: string, item: Layout, after: string)
  datatype Member = Member(before: string, key: seq<Spelled>, beforeColon: string, afterColon: string, item: Layout, after: string)

  predicate Fit(l: Layout)
    decreases l, 1
  {
    match l
    case LNumber(n) => FitNumeral(n)
    case LStr(chars) => FitChars(chars)
    case LArray(slots, inside) => White(inside) && FitSlots(slots)
    case LObject(members, inside) => White(inside) && FitMembers(members)
    case _ => true
  }

  predicate FitSlots(slots: seq<Slot>)
    decreases slots, 0
  {
    slots == [] || (White(slots[0].before) && White(slots[0].after) && Fit(slots[0].item) && FitSlots(slots[1..]))
  }

  predicate FitMembers(members: seq<Member>)
    decreases members, 0
  {
    members == [] ||
    (var m := members[0];
     && White(m.before) && FitChars(m.key) && White(m.beforeColon) && White(m.afterColon) && White(m.after)
     && Fit(m.item) && FitMembers(members[1..]))
  }

  function Put(l: Layout, rest: string): string
    decreases l, 1
  {
    match l
    case LNull => "null" + rest
    case LBool(b) => (if b then "true" else "false") + rest
    case LNumber(n) => PutNumeral(n, rest)
    case LStr(chars) => "\"" + PutChars(chars, "\"" + rest)
    case LArray(slots, inside) => "[" + if slots == [] then inside + ("]" + rest) else PutSlots(slots, rest)
    case LObject(members, inside) => "{" + if members == [] then inside + ("}" + rest) else PutMembers(members, rest)
  }

  function PutSlots(slots: seq<Slot>, rest: string): string
    decreases slots, 0
  {
    if slots == [] then rest
    else
      slots[0].before
      + Put(slots[0].item, slots[0].after + if |slots| == 1 then "]" + rest else "," + PutSlots(slots[1..], rest))
  }

  function PutMembers(members: seq<Member>, rest: string): string
    decreases members, 0
  {
    if members == [] then rest
    else
      var m := members[0];
      var value := Put(m.item, m.after + if |members| == 1 then "}" + rest else "," + PutMembers(members[1..], rest));
      m.before + ("\"" + PutChars(m.key, "\"" + (m.beforeColon + (":" + (m.afterColon + value)))))
  }

  /** The value that is laid out; numbers keep their digits, a later member replaces an earlier one. */
  function Val(l: Layout): Value
    requires Fit(l)
    decreases l, 1
  {
    match l
    case LNull => Null
    case LBool(b) => Bool(b)
    case LNumber(n) => Number(PutNumeral(n, ""))
    case LStr(chars) => Str(CharsOf(chars))
    case LArray(slots, _) => Array(SlotVals(slots))
    case LObject(members, _) => Object(MemberVals(members))
  }

  function SlotVals(slots: seq<Slot>): seq<Value>
    requires FitSlots(slots)
    decreases slots, 0
  {
    if slots == [] then [] else [Val(slots[0].item)] + SlotVals(slots[1..])
  }

  function MemberVals(members: seq<Member>): map<string, Value>
    requires FitMembers(members)
    decreases members, 0
  {
    if members == [] then map[]
    else
      var later := MemberVals(members[1..]);
      var key := CharsOf(members[0].key);
      if key in later then later else later[key := Val(members[0].item)]
  }

  /** The whole text is one value between white space. */
  ghost predicate Spells(text: string, v: Value) {
    exists l: Layout, before: string, after: string ::
      Fit(l) && White(before) && White(after) && text == before + Put(l, after) && Val(l) == v
  }

  /** The text starts with a value, and what follows is not part of it. */
  ghost predicate Starts(text: string, v: Value, rest: string) {
    exists l: Layout, before: string ::
      && Fit(l) && White(before) && text == before + Put(l, rest) && Val(l) == v
      && (l.LNumber? && rest != "" ==> !Extends(l.n, rest[0]))
  }

  // ---------------------------------------------------------------- white space

  lemma {:induction false} SkipsWhite(w: string, s: string)
    requires White(w) && (s == "" || !IsWhite(s[0]))
    ensures SkipSpace(w + s) == s
  {
    if w == "" {
      assert w + s == s;
    } else {
      assert w[0] in w && (w + s)[1..] == w[1..] + s;
      SkipsWhite(w[1..], s);
    }
  }

  lemma {:induction false} SkippedIsWhite(s: string) returns (w: string)
    ensures White(w) && s == w + SkipSpace(s)
    ensures SkipSpace(s) != "" ==> !IsWhite(SkipSpace(s)[0])
  {
    if s != "" && IsWhite(s[0]) {
      var v := SkippedIsWhite(s[1..]);
      w := [s[0]] + v;
      assert s == [s[0]] + s[1..];
    } else {
      w := "";
      assert s == w + s;
    }
  }

  // ---------------------------------------------------------------- numbers

  lemma ExponentReads(e: Option<Exponent>, rest: string)
    requires e.Some? ==> FitExponent(e.value) && (rest != "" ==> !IsDigit(rest[0]))
    requires e.None? ==> (rest != "" ==> rest[0] != 'e' && rest[0] != 'E')
    ensures ExponentLength(PutExponent(e, rest)) == Some(|PutExponent(e, rest)| - |rest|)
  {
    if e.Some? {
      var x := e.value;
      var s := PutExponent(e, rest);
      DigitRunIs(x.digits, rest);
      assert s[1..] == x.sign + (x.digits + rest);
      assert s[1..][|x.sign|..] == x.digits + rest;
      assert (x.digits + rest)[0] == x.digits[0] && IsDigit(x.digits[0]);
    }
  }

  lemma ExponentStarts(e: Option<Exponent>, rest: string)
    requires e.Some? ==> FitExponent(e.value)
    ensures e.Some? ==> PutExponent(e, rest) != "" && (PutExponent(e, rest)[0] == 'e' || PutExponent(e, rest)[0] == 'E')
    ensures e.None? ==> PutExponent(e, rest) == rest
  {
  }

  lemma FractionReads(fraction: string, tail: string)
    requires AllDigits(fraction) && (tail != "" ==> !(fraction != "" && IsDigit(tail[0])) && !(fraction == "" && tail[0] == '.'))
    ensures var s, k := PutFraction(fraction, tail), if fraction == "" then 0 else 1 + |fraction|;
            FractionLength(s) == Some(k) && |s| == k + |tail| && s[k..] == tail
  {
    if fraction != "" {
      DigitRunIs(fraction, tail);
      assert PutFraction(fraction, tail)[1..] == fraction + tail;
    }
  }

  lemma TailReads(fraction: string, e: Option<Exponent>, rest: string)
    requires AllDigits(fraction) && (e.Some? ==> FitExponent(e.value))
    requires rest != "" ==> !((fraction != "" || e.Some?) && IsDigit(rest[0]))
    requires rest != "" ==> !(e.None? && (rest[0] == 'e' || rest[0] == 'E')) && !(fraction == "" && e.None? && rest[0] == '.')
    ensures var s := PutFraction(fraction, PutExponent(e, rest)); TailLength(s) == Some(|s| - |rest|)
  {
    hide ExponentLength, PutExponent, FractionLength, PutFraction, FitExponent;
    ExponentReads(e, rest);
    ExponentStarts(e, rest);
    FractionReads(fraction, PutExponent(e, rest));
  }

  lemma FractionStarts(fraction: string, e: Option<Exponent>, rest: string)
    requires e.Some? ==> FitExponent(e.value)
    requires fraction == "" && e.None? && rest != "" ==> !IsDigit(rest[0])
    ensures var s := PutFraction(fraction, PutExponent(e, rest)); s != "" ==> !IsDigit(s[0])
  {
    hide PutExponent;
    ExponentStarts(e, rest);
  }

  lemma NumeralReads(n: Numeral, rest: string)
    requires FitNumeral(n) && (rest != "" ==> !Extends(n, rest[0]))
    ensures NumberLength(PutNumeral(n, rest)) == Some(|PutNumeral(n, rest)| - |rest|)
  {
    var tail := PutFraction(n.fraction, PutExponent(n.exponent, rest));
    hide TailLength, PutFraction, PutExponent, FitExponent, UnsignedLength;
    TailReads(n.fraction, n.exponent, rest);
    if n.whole != "0" {
      FractionStarts(n.fraction, n.exponent, rest);
    }
    UnsignedReads(n.whole, tail, rest);
    var s, u := PutNumeral(n, rest), n.whole + tail;
    assert if n.negative then s[1..] == u else s == u && s[0..] == u;
  }

  lemma UnsignedReads(whole: string, tail: string, rest: string)
    requires whole == "0" || (whole != "" && AllDigits(whole) && whole[0] != '0' && (tail != "" ==> !IsDigit(tail[0])))
    requires TailLength(tail) == Some(|tail| - |rest|)
    ensures UnsignedLength(whole + tail) == Some(|whole + tail| - |rest|)
  {
    hide TailLength;
    var u := whole + tail;
    assert u[|whole|..] == tail;
    if whole != "0" {
      DigitRunIs(whole, tail);
    }
  }

  lemma ExponentIsRead(s: string) returns (e: Option<Exponent>, rest: string)
    requires ExponentLength(s).Some?
    ensures s == PutExponent(e, rest) && |rest| == |s| - ExponentLength(s).value
    ensures e.Some? ==> FitExponent(e.value) && (rest != "" ==> !IsDigit(rest[0]))
    ensures e.None? ==> (rest != "" ==> rest[0] != 'e' && rest[0] != 'E')
  {
    if ExponentLength(s).value == 0 {
      e, rest := None, s;
    } else {
      var t := s[1..];
      var k := SignLength(t);
      var digits := DigitsAtFront(t[k..]);
      e, rest := Some(Exponent(s[0], t[..k], digits)), t[k..][|digits|..];
      assert s == [s[0]] + t && t == t[..k] + t[k..] && t[k..] == digits + rest;
      assert t[..k] == "" || t[..k] == [t[0]];
    }
  }

  lemma {:induction false} DigitsAtFront(s: string) returns (digits: string)
    ensures |digits| == DigitRun(s) && s == digits + s[DigitRun(s)..] && AllDigits(digits)
    ensures DigitRun(s) < |s| ==> !IsDigit(s[DigitRun(s)])
  {
    if s == "" || !IsDigit(s[0]) {
      digits := "";
    } else {
      var more := DigitsAtFront(s[1..]);
      digits := [s[0]] + more;
      assert s == [s[0]] + s[1..] && s[1..][DigitRun(s[1..])..] == s[DigitRun(s)..];
    }
  }

  lemma TailIsRead(s: string) returns (fraction: string, e: Option<Exponent>, rest: string)
    requires TailLength(s).Some?
    ensures s == PutFraction(fraction, PutExponent(e, rest)) && |rest| == |s| - TailLength(s).value
    ensures AllDigits(fraction) && (e.Some? ==> FitExponent(e.value))
    ensures rest != "" ==> !((fraction != "" || e.Some?) && IsDigit(rest[0]))
    ensures rest != "" ==> !(e.None? && (rest[0] == 'e' || rest[0] == 'E')) && !(fraction == "" && e.None? && rest[0] == '.')
  {
    var n := FractionLength(s).value;
    e, rest := ExponentIsRead(s[n..]);
    if n == 0 {
      fraction := "";
      assert s[0..] == s;
    } else {
      fraction := DigitsAtFront(s[1..]);
      assert s == ['.'] + s[1..] && s[1..][|fraction|..] == s[n..];
    }
  }

  lemma WholeIsRead(u: string) returns (whole: string)
    requires IntLength(u) > 0
    ensures whole == u[..IntLength(u)] && u == whole + u[IntLength(u)..]
    ensures whole == "0" || (AllDigits(whole) && whole[0] != '0')
    ensures whole != "0" && IntLength(u) < |u| ==> !IsDigit(u[IntLength(u)])
  {
    whole := u[..IntLength(u)];
    if u[0] == '0' {
      assert whole == "0";
    } else {
      var digits := DigitsAtFront(u);
      assert whole == digits;
    }
  }

  lemma NumeralIsRead(s: string) returns (n: Numeral, rest: string)
    requires NumberLength(s).Some?
    ensures FitNumeral(n) && s == PutNumeral(n, rest) && |rest| == |s| - NumberLength(s).value
    ensures rest != "" ==> !Extends(n, rest[0])
  {
    hide PutFraction, PutExponent, IntLength, TailLength;
    var minus := if s != "" && s[0] == '-' then 1 else 0;
    var u := s[minus..];
    var k := IntLength(u);
    var whole := WholeIsRead(u);
    var fraction, e;
    fraction, e, rest := TailIsRead(u[k..]);
    n := Numeral(minus == 1, whole, fraction, e);
    assert s == s[..minus] + u && s[..minus] == if minus == 1 then "-" else "";
    if rest != "" && fraction == "" && e.None? {
      PlainTail(rest);
      assert u[k..] == rest && u[k] == rest[0];
    }
  }

  lemma PlainTail(rest: string)
    ensures PutFraction("", PutExponent(None, rest)) == rest
  {
  }

  // ---------------------------------------------------------------- strings

  lemma CodeReads(digits: string, rest: string)
    requires IsCode(digits)
    ensures Hex4(digits + rest) == Code(digits)
  {
    assert forall i :: 0 <= i < 4 ==> (digits + rest)[i] == digits[i];
  }

  /** A code at the front of a text is what it is in the text. */
  lemma CodeIsRead(s: string)
    requires Hex4(s) >= 0
    ensures IsCode(s[..4]) && Code(s[..4]) == Hex4(s) && s == s[..4] + s[4..]
  {
  }

  lemma CharReads(x: Spelled, rest: string)
    requires FitChar(x) && (x.Coded? && IsHigh(x.digits) ==> LowSurrogate(rest) < 0)
    ensures ReadChar(CharText(x) + rest) == Some((CharOf(x), |CharText(x)|))
  {
    hide Hex4, Code, LowSurrogate;
    match x
    case Bare(_) =>
    case Short(letter) => assert (CharText(x) + rest)[1] == letter;
    case Coded(digits) => CodedReads(digits, rest);
    case Paired(high, low) => PairedReads(high, low, rest);
  }

  lemma CodedReads(digits: string, rest: string)
    requires IsCode(digits) && (IsHigh(digits) ==> LowSurrogate(rest) < 0)
    ensures ReadChar(CharText(Coded(digits)) + rest) == Some((CharOf(Coded(digits)), 6))
  {
    hide Hex4, Code, LowSurrogate;
    var s := CharText(Coded(digits)) + rest;
    CodeReads(digits, rest);
    assert s[2..] == digits + rest && s[6..] == rest && s[0] == '\\' && s[1] == 'u';
  }

  lemma LowReads(low: string, rest: string)
    requires IsLow(low)
    ensures LowSurrogate(['\\', 'u'] + (low + rest)) == Code(low)
  {
    hide Hex4, Code;
    CodeReads(low, rest);
    assert (['\\', 'u'] + (low + rest))[2..] == low + rest;
  }

  lemma PairedReads(high: string, low: string, rest: string)
    requires IsHigh(high) && IsLow(low)
    ensures ReadChar(CharText(Paired(high, low)) + rest) == Some((CharOf(Paired(high, low)), 12))
  {
    hide Hex4, Code, LowSurrogate;
    var s, after := CharText(Paired(high, low)) + rest, ['\\', 'u'] + (low + rest);
    CodeReads(high, after);
    LowReads(low, rest);
    assert s == ['\\', 'u'] + (high + after);
    EscapeReads(high, after);
  }

  /** The reader's branch for a code. */
  lemma EscapeReads(digits: string, after: string)
    requires IsCode(digits)
    ensures ReadChar(['\\', 'u'] + (digits + after))
            == Some((UnicodeEscape(Code(digits), after).0, 6 + UnicodeEscape(Code(digits), after).1))
  {
    hide Hex4, Code, UnicodeEscape;
    var s := ['\\', 'u'] + (digits + after);
    CodeReads(digits, after);
    assert s[2..] == digits + after && s[6..] == after;
  }

  /** What follows a lone high surrogate in a string is not a low one. */
  lemma NoLowBehind(xs: seq<Spelled>, rest: string)
    requires FitChars(xs) && (xs == [] || !(xs[0].Coded? && IsLow(xs[0].digits)))
    ensures LowSurrogate(PutChars(xs, "\"" + rest)) < 0
  {
    hide LowSurrogate, CharText;
    if xs == [] {
      QuoteIsNoLow(rest);
    } else {
      CharIsNoLow(xs[0], PutChars(xs[1..], "\"" + rest));
    }
  }

  lemma QuoteIsNoLow(rest: string)
    ensures LowSurrogate("\"" + rest) < 0
  {
  }

  lemma CharIsNoLow(x: Spelled, tail: string)
    requires FitChar(x) && !(x.Coded? && IsLow(x.digits))
    ensures LowSurrogate(CharText(x) + tail) < 0
  {
    hide Hex4, Code;
    var s := CharText(x) + tail;
    if x.Coded? {
      assert s == ['\\', 'u'] + (x.digits + tail);
      CodeIsNoLow(x.digits, tail);
    } else if x.Paired? {
      var after := ['\\', 'u'] + (x.low + tail);
      assert s == ['\\', 'u'] + (x.high + after);
      CodeIsNoLow(x.high, after);
    } else {
      hide LowSurrogate;
      ShortIsNoLow(x, tail);
    }
  }

  lemma ShortIsNoLow(x: Spelled, tail: string)
    requires FitChar(x) && (x.Bare? || x.Short?)
    ensures LowSurrogate(CharText(x) + tail) < 0
  {
    hide Hex4;
    var s := CharText(x) + tail;
    assert x.Short? ==> s[1] == x.letter;
  }

  lemma CodeIsNoLow(digits: string, tail: string)
    requires IsCode(digits) && !IsLow(digits)
    ensures LowSurrogate(['\\', 'u'] + (digits + tail)) < 0
  {
    hide Hex4, Code;
    var s := ['\\', 'u'] + (digits + tail);
    CodeReads(digits, tail);
    assert s[2..] == digits + tail;
  }

  lemma {:induction false} CharsRead(xs: seq<Spelled>, rest: string)
    requires FitChars(xs)
    ensures ReadString(PutChars(xs, "\"" + rest)) == Some((CharsOf(xs), rest))
  {
    hide ReadChar, CharText, CharOf, LowSurrogate;
    if xs == [] {
      assert ("\"" + rest)[1..] == rest;
    } else {
      var tail := PutChars(xs[1..], "\"" + rest);
      var s := CharText(xs[0]) + tail;
      if xs[0].Coded? && IsHigh(xs[0].digits) {
        NoLowBehind(xs[1..], rest);
      }
      CharReads(xs[0], tail);
      CharStarts(xs[0], tail);
      CharsRead(xs[1..], rest);
      assert s[|CharText(xs[0])|..] == tail;
    }
  }

  lemma CharStarts(x: Spelled, tail: string)
    requires FitChar(x)
    ensures CharText(x) != "" && (CharText(x) + tail)[0] != '"'
  {
  }

  lemma CharIsRead(s: string) returns (x: Spelled)
    requires ReadChar(s).Some?
    ensures var (c, n) := ReadChar(s).value;
            FitChar(x) && CharOf(x) == c && |CharText(x)| == n && s == CharText(x) + s[n..]
    ensures x.Coded? && IsHigh(x.digits) ==> LowSurrogate(s[6..]) < 0
  {
    hide Hex4, Code, LowSurrogate;
    if s[0] != '\\' {
      x := Bare(s[0]);
    } else if s[1] != 'u' {
      x := Short(s[1]);
      assert s[..2] == ['\\', s[1]];
    } else {
      x := CodeAtFront(s);
    }
  }

  lemma CodeAtFront(s: string) returns (x: Spelled)
    requires |s| >= 2 && s[0] == '\\' && s[1] == 'u' && Hex4(s[2..]) >= 0
    ensures var (c, more) := UnicodeEscape(Hex4(s[2..]), s[6..]);
            FitChar(x) && CharOf(x) == c && |CharText(x)| == 6 + more && s == CharText(x) + s[6 + more..]
    ensures x.Coded? && IsHigh(x.digits) ==> LowSurrogate(s[6..]) < 0
  {
    hide Hex4, Code;
    CodeIsRead(s[2..]);
    var digits := s[2..][..4];
    assert s[2..][4..] == s[6..];
    assert s == ['\\', 'u'] + (digits + s[6..]);
    if IsHigh(digits) && LowSurrogate(s[6..]) >= 0 {
      CodeIsRead(s[6..][2..]);
      var low := s[6..][2..][..4];
      assert s[6..][2..][4..] == s[12..];
      assert s[6..] == ['\\', 'u'] + (low + s[12..]);
      x := Paired(digits, low);
    } else {
      x := Coded(digits);
    }
  }

  lemma {:induction false} StringIsRead(s: string) returns (xs: seq<Spelled>)
    requires ReadString(s).Some?
    ensures FitChars(xs) && CharsOf(xs) == ReadString(s).value.0 && s == PutChars(xs, "\"" + ReadString(s).value.1)
    decreases |s|
  {
    hide ReadChar, CharText, CharOf, LowSurrogate;
    var rest := ReadString(s).value.1;
    if s[0] == '"' {
      xs := [];
      assert s == "\"" + rest;
    } else {
      var n := ReadChar(s).value.1;
      var x := CharIsRead(s);
      var more := StringIsRead(s[n..]);
      xs := [x] + more;
      assert xs[1..] == more;
      if more != [] && x.Coded? && IsHigh(x.digits) && more[0].Coded? && IsLow(more[0].digits) {
        LowIsSeen(more, rest);
        CodedText(x);
        assert false;
      }
    }
  }

  lemma CodedText(x: Spelled)
    requires x.Coded? && IsCode(x.digits)
    ensures |CharText(x)| == 6
  {
  }

  lemma LowIsSeen(xs: seq<Spelled>, rest: string)
    requires xs != [] && xs[0].Coded? && IsLow(xs[0].digits)
    ensures LowSurrogate(PutChars(xs, "\"" + rest)) >= 0
  {
    hide Hex4, Code;
    var tail := PutChars(xs[1..], "\"" + rest);
    CodeReads(xs[0].digits, tail);
    assert PutChars(xs, "\"" + rest)[2..] == xs[0].digits + tail;
  }

  // ---------------------------------------------------------------- every layout is read

  lemma PutStarts(l: Layout, rest: string)
    requires Fit(l)
    ensures Put(l, rest) != "" && StartsValue(Put(l, rest)[0]) && !IsWhite(Put(l, rest)[0])
  {
    hide FitChars, PutChars, PutSlots, PutMembers, PutFraction, PutExponent;
  }

  lemma {:induction false} LayoutReads(l: Layout, before: string, rest: string) returns (x: Syntax)
    requires Fit(l) && White(before) && (l.LNumber? && rest != "" ==> !Extends(l.n, rest[0]))
    ensures ReadValue(before + Put(l, rest)) == Some((x, rest)) && ValueOf(x) == Val(l)
    decreases l, 1
  {
    hide ReadValue, SkipSpace, Extends, FitChars, FitNumeral, Put, PutSlots, PutMembers, Val;
    PutStarts(l, rest);
    SkipsWhite(before, Put(l, rest));
    SkipsWhite("", Put(l, rest));
    assert "" + Put(l, rest) == Put(l, rest);
    SameAfterSkip(before + Put(l, rest), Put(l, rest));
    match l {
      case LArray(slots, inside) =>
        if slots == [] {
          x := EmptyReads(l, rest);
        } else {
          var es := SlotsRead(slots, rest);
          x := SArray(es);
          ArrayReads(l, es, rest);
        }
      case LObject(members, inside) =>
        if members == [] {
          x := EmptyReads(l, rest);
        } else {
          var fs := MembersRead(members, rest);
          x := SObject(fs);
          ObjectReads(l, fs, rest);
        }
      case _ =>
        x := LeafReads(l, rest);
    }
  }

  /** White space in front changes nothing. */
  lemma SameAfterSkip(s: string, t: string)
    requires SkipSpace(s) == t && SkipSpace(t) == t
    ensures ReadValue(s) == ReadValue(t)
  {
    hide ReadElements, ReadFields, ReadString, NumberLength, SkipSpace;
  }

  lemma LeafReads(l: Layout, rest: string) returns (x: Syntax)
    requires Fit(l) && !l.LArray? && !l.LObject? && (l.LNumber? && rest != "" ==> !Extends(l.n, rest[0]))
    ensures ReadValue(Put(l, rest)) == Some((x, rest)) && ValueOf(x) == Val(l)
  {
    var s := Put(l, rest);
    PutStarts(l, rest);
    NoSpace(s);
    match l
    case LNumber(n) =>
      NumberLeafReads(n, rest);
      x := SNumber(PutNumeral(n, ""));
    case LStr(chars) =>
      StringLeafReads(chars, rest);
      x := SStr(CharsOf(chars));
    case LNull =>
      WordReads("null", rest);
      x := SNull;
    case LBool(b) =>
      WordReads(if b then "true" else "false", rest);
      x := SBool(b);
  }

  lemma WordReads(word: string, rest: string)
    requires word == "null" || word == "true" || word == "false"
    ensures ReadValue(word + rest)
            == Some((if word == "null" then SNull else SBool(word == "true"), rest))
  {
    hide ReadElements, ReadFields, ReadString, NumberLength;
    NoSpace(word + rest);
    assert (word + rest)[|word|..] == rest && word <= word + rest;
    assert "true" != "false" && "null" != "true";
  }

  lemma StringLeafReads(chars: seq<Spelled>, rest: string)
    requires FitChars(chars)
    ensures ReadValue("\"" + PutChars(chars, "\"" + rest)) == Some((SStr(CharsOf(chars)), rest))
  {
    hide ReadElements, ReadFields, ReadString, NumberLength, PutChars, FitChars;
    var s := "\"" + PutChars(chars, "\"" + rest);
    NoSpace(s);
    CharsRead(chars, rest);
    assert s[1..] == PutChars(chars, "\"" + rest);
  }

  lemma PutNumeralSplits(n: Numeral, rest: string)
    ensures PutNumeral(n, rest) == PutNumeral(n, "") + rest
  {
    var tail, short := PutExponent(n.exponent, rest), PutExponent(n.exponent, "");
    assert tail == short + rest by {
      if n.exponent.Some? {
        var x := n.exponent.value;
        assert [x.letter] + (x.sign + (x.digits + rest)) == [x.letter] + (x.sign + (x.digits + "")) + rest;
      }
    }
    hide PutExponent;
    assert PutFraction(n.fraction, tail) == PutFraction(n.fraction, short) + rest by {
      assert "." + (n.fraction + (short + rest)) == "." + (n.fraction + short) + rest;
    }
    hide PutFraction;
  }

  lemma NumberLeafReads(n: Numeral, rest: string)
    requires FitNumeral(n) && (rest != "" ==> !Extends(n, rest[0]))
    ensures ReadValue(PutNumeral(n, rest)) == Some((SNumber(PutNumeral(n, "")), rest))
  {
    hide PutNumeral, Extends, FitNumeral, ReadElements, ReadFields, ReadString, NumberLength;
    NumeralReads(n, rest);
    PutNumeralSplits(n, rest);
    NumberStarts(n, rest);
    var s, t := PutNumeral(n, rest), PutNumeral(n, "");
    assert s == t + rest && s[..|t|] == t && s[|t|..] == rest;
    NoSpace(s);
  }

  lemma NumberStarts(n: Numeral, rest: string)
    requires FitNumeral(n)
    ensures PutNumeral(n, rest) != "" && (PutNumeral(n, rest)[0] == '-' || IsDigit(PutNumeral(n, rest)[0]))
  {
    hide PutFraction;
  }

  lemma EmptyReads(l: Layout, rest: string) returns (x: Syntax)
    requires Fit(l) && ((l.LArray? && l.slots == []) || (l.LObject? && l.members == []))
    ensures ReadValue(Put(l, rest)) == Some((x, rest)) && ValueOf(x) == Val(l)
  {
    hide ReadElements, ReadFields, ReadString, NumberLength;
    var close := if l.LArray? then "]" + rest else "}" + rest;
    SkipsWhite(l.inside, close);
    var s := Put(l, rest);
    NoSpace(s);
    assert s[1..] == l.inside + close && close[1..] == rest;
    x := if l.LArray? then SArray([]) else SObject([]);
  }

  lemma ArrayReads(l: Layout, es: seq<Element>, rest: string)
    requires Fit(l) && l.LArray? && l.slots != []
    requires ReadElements(PutSlots(l.slots, rest)) == Some((es, rest)) && ItemsOf(es) == SlotVals(l.slots)
    ensures ReadValue(Put(l, rest)) == Some((SArray(es), rest)) && ValueOf(SArray(es)) == Val(l)
  {
    hide ReadElements, ReadFields, ReadString, NumberLength, FitSlots;
    var u := PutSlots(l.slots, rest);
    var s := "[" + u;
    NoSpace(s);
    assert s[1..] == u;
    SlotsStart(l.slots, rest);
    ElementsSkip(u);
  }

  /** White space in front of the first element is skipped twice at most. */
  lemma ElementsSkip(u: string)
    ensures ReadElements(SkipSpace(u)).Some? <==> ReadElements(u).Some?
    ensures ReadElements(u).Some? ==> ReadElements(SkipSpace(u)) == ReadElements(u)
    ensures ReadFields(SkipSpace(u)) == ReadFields(u)
  {
    SkipTwice(u);
    hide SkipSpace;
  }

  lemma {:induction false} SkipTwice(s: string)
    ensures SkipSpace(SkipSpace(s)) == SkipSpace(s)
  {
    if s != "" && SkipSpace(s) != s {
      SkipTwice(s[1..]);
    }
  }

  lemma SlotsStart(slots: seq<Slot>, rest: string)
    requires slots != [] && FitSlots(slots)
    ensures var u := SkipSpace(PutSlots(slots, rest)); u != "" && u[0] != ']'
  {
    var tail := slots[0].after + if |slots| == 1 then "]" + rest else "," + PutSlots(slots[1..], rest);
    PutStarts(slots[0].item, tail);
    SkipsWhite(slots[0].before, Put(slots[0].item, tail));
    hide Put, PutSlots, FitSlots, SkipSpace;
    assert PutSlots(slots, rest) == slots[0].before + Put(slots[0].item, tail) by { FirstSlot(slots, rest); }
  }

  lemma FirstSlot(slots: seq<Slot>, rest: string)
    requires slots != []
    ensures PutSlots(slots, rest)
            == slots[0].before
               + Put(slots[0].item, slots[0].after + if |slots| == 1 then "]" + rest else "," + PutSlots(slots[1..], rest))
  {
    hide Put;
  }

  lemma {:induction false} SlotsRead(slots: seq<Slot>, rest: string) returns (es: seq<Element>)
    requires slots != [] && FitSlots(slots)
    ensures ReadElements(PutSlots(slots, rest)) == Some((es, rest)) && ItemsOf(es) == SlotVals(slots)
    decreases slots, 0
  {
    hide ReadValue, ReadElements, Put, Extends, FitNumeral, SkipSpace;
    var first := slots[0];
    FirstSlot(slots, rest);
    if |slots| == 1 {
      CloseExtendsNothing(first.item, first.after, "]" + rest);
      var x := LayoutReads(first.item, "", first.after + ("]" + rest));
      es := LastSlotReads(first, x, rest);
    } else {
      var tail := PutSlots(slots[1..], rest);
      CloseExtendsNothing(first.item, first.after, "," + tail);
      var x := LayoutReads(first.item, "", first.after + ("," + tail));
      var more := SlotsRead(slots[1..], rest);
      es := NextSlotReads(first, x, tail, more, rest);
    }
  }

  /** White space, a comma or a closing bracket end a number. */
  lemma CloseExtendsNothing(l: Layout, after: string, close: string)
    requires White(after) && close != "" && (close[0] == ']' || close[0] == '}' || close[0] == ',')
    ensures l.LNumber? ==> !Extends(l.n, (after + close)[0])
    ensures White("")
  {
    assert (after + close)[0] in after || (after + close)[0] == close[0];
  }

  lemma LastSlotReads(slot: Slot, x: Syntax, rest: string) returns (es: seq<Element>)
    requires White(slot.before) && White(slot.after) && Fit(slot.item) && ValueOf(x) == Val(slot.item)
    requires var after := slot.after + ("]" + rest); ReadValue("" + Put(slot.item, after)) == Some((x, after))
    ensures ReadElements(slot.before + Put(slot.item, slot.after + ("]" + rest))) == Some((es, rest))
    ensures ItemsOf(es) == [Val(slot.item)]
  {
    hide ReadValue, Put, Val, ValueOf, SkipSpace, Fit;
    var after := slot.after + ("]" + rest);
    var t := Put(slot.item, after);
    assert "" + t == t;
    PutStarts(slot.item, after);
    SkipsWhite(slot.before, t);
    SkipsWhite(slot.after, "]" + rest);
    assert ("]" + rest)[1..] == rest;
    es := [Element(t[..|t| - |after|], x)];
    assert es[1..] == [];
  }

  lemma NextSlotReads(slot: Slot, x: Syntax, tail: string, more: seq<Element>, rest: string) returns (es: seq<Element>)
    requires White(slot.before) && White(slot.after) && Fit(slot.item) && ValueOf(x) == Val(slot.item)
    requires var after := slot.after + ("," + tail); ReadValue("" + Put(slot.item, after)) == Some((x, after))
    requires ReadElements(tail) == Some((more, rest))
    ensures ReadElements(slot.before + Put(slot.item, slot.after + ("," + tail))) == Some((es, rest))
    ensures ItemsOf(es) == [Val(slot.item)] + ItemsOf(more)
  {
    hide ReadValue, Put, Val, ValueOf, SkipSpace, Fit;
    var after := slot.after + ("," + tail);
    var t := Put(slot.item, after);
    assert "" + t == t;
    PutStarts(slot.item, after);
    SkipsWhite(slot.before, t);
    SkipsWhite(slot.after, "," + tail);
    assert ("," + tail)[1..] == tail;
    es := [Element(t[..|t| - |after|], x)] + more;
    assert es[1..] == more;
  }

  lemma ObjectReads(l: Layout, fs: seq<Field>, rest: string)
    requires Fit(l) && l.LObject? && l.members != []
    requires ReadFields(PutMembers(l.members, rest)) == Some((fs, rest)) && MembersOf(fs) == MemberVals(l.members)
    ensures ReadValue(Put(l, rest)) == Some((SObject(fs), rest)) && ValueOf(SObject(fs)) == Val(l)
  {
    hide ReadElements, ReadFields, ReadString, NumberLength, FitMembers;
    var u := PutMembers(l.members, rest);
    var s := "{" + u;
    NoSpace(s);
    assert s[1..] == u;
    MembersStart(l.members, rest);
    ElementsSkip(u);
  }

  /** The text of a member behind the white space in front of it. */
  function PutKeyed(m: Member, tail: string): string {
    "\"" + PutChars(m.key, "\"" + (m.beforeColon + (":" + (m.afterColon + Put(m.item, m.after + tail)))))
  }

  lemma FirstMember(members: seq<Member>, rest: string)
    requires members != []
    ensures PutMembers(members, rest)
            == members[0].before + PutKeyed(members[0], if |members| == 1 then "}" + rest else "," + PutMembers(members[1..], rest))
  {
    hide Put, PutChars;
  }

  lemma MembersStart(members: seq<Member>, rest: string)
    requires members != [] && FitMembers(members)
    ensures var u := SkipSpace(PutMembers(members, rest)); u != "" && u[0] != '}'
  {
    hide Put, PutMembers, PutChars, SkipSpace;
    FirstMember(members, rest);
    SkipsWhite(members[0].before, PutKeyed(members[0], if |members| == 1 then "}" + rest else "," + PutMembers(members[1..], rest)));
  }

  lemma {:induction false} MembersRead(members: seq<Member>, rest: string) returns (fs: seq<Field>)
    requires members != [] && FitMembers(members)
    ensures ReadFields(PutMembers(members, rest)) == Some((fs, rest)) && MembersOf(fs) == MemberVals(members)
    decreases members, 0
  {
    hide ReadValue, ReadFields, Put, PutKeyed, Extends, FitNumeral, SkipSpace, FitChars;
    var first := members[0];
    FirstMember(members, rest);
    if |members| == 1 {
      CloseExtendsNothing(first.item, first.after, "}" + rest);
      var x := LayoutReads(first.item, first.afterColon, first.after + ("}" + rest));
      fs := LastMemberReads(first, x, rest);
    } else {
      var tail := PutMembers(members[1..], rest);
      CloseExtendsNothing(first.item, first.after, "," + tail);
      var x := LayoutReads(first.item, first.afterColon, first.after + ("," + tail));
      var more := MembersRead(members[1..], rest);
      fs := NextMemberReads(first, x, tail, more, rest);
    }
    MembersAgree(members, fs);
  }

  lemma KeyReads(m: Member, tail: string)
    requires FitChars(m.key) && White(m.before) && White(m.beforeColon)
    ensures var body := m.afterColon + Put(m.item, m.after + tail);
            var s := PutKeyed(m, tail);
            && SkipSpace(m.before + s) == s && s != "" && s[0] == '"'
            && ReadString(s[1..]) == Some((CharsOf(m.key), m.beforeColon + (":" + body)))
            && SkipSpace(m.beforeColon + (":" + body)) == ":" + body && (":" + body)[1..] == body
  {
    hide Put, PutChars, FitChars, ReadString, SkipSpace;
    var body := m.afterColon + Put(m.item, m.after + tail);
    CharsRead(m.key, m.beforeColon + (":" + body));
    SkipsWhite(m.before, PutKeyed(m, tail));
    SkipsWhite(m.beforeColon, ":" + body);
    assert PutKeyed(m, tail)[1..] == PutChars(m.key, "\"" + (m.beforeColon + (":" + body)));
  }

  lemma LastMemberReads(m: Member, x: Syntax, rest: string) returns (fs: seq<Field>)
    requires FitMembers([m]) && ValueOf(x) == Val(m.item)
    requires var after := m.after + ("}" + rest); ReadValue(m.afterColon + Put(m.item, after)) == Some((x, after))
    ensures ReadFields(m.before + PutKeyed(m, "}" + rest)) == Some((fs, rest))
    ensures fs == [Field(CharsOf(m.key), x)]
  {
    hide ReadValue, Put, PutKeyed, Val, ValueOf, SkipSpace, Fit, FitChars, ReadString;
    KeyReads(m, "}" + rest);
    SkipsWhite(m.after, "}" + rest);
    assert ("}" + rest)[1..] == rest;
    fs := [Field(CharsOf(m.key), x)];
  }

  lemma NextMemberReads(m: Member, x: Syntax, tail: string, more: seq<Field>, rest: string) returns (fs: seq<Field>)
    requires FitMembers([m]) && ValueOf(x) == Val(m.item)
    requires var after := m.after + ("," + tail); ReadValue(m.afterColon + Put(m.item, after)) == Some((x, after))
    requires ReadFields(tail) == Some((more, rest))
    ensures ReadFields(m.before + PutKeyed(m, "," + tail)) == Some((fs, rest))
    ensures fs == [Field(CharsOf(m.key), x)] + more
  {
    hide ReadValue, Put, PutKeyed, Val, ValueOf, SkipSpace, Fit, FitChars, ReadString;
    KeyReads(m, "," + tail);
    SkipsWhite(m.after, "," + tail);
    assert ("," + tail)[1..] == tail;
    fs := [Field(CharsOf(m.key), x)] + more;
  }

  lemma {:induction false} MembersAgree(members: seq<Member>, fs: seq<Field>)
    requires members != [] && fs != [] && FitMembers(members)
    requires fs[0].key == CharsOf(members[0].key) && ValueOf(fs[0].value) == Val(members[0].item)
    requires MembersOf(fs[1..]) == MemberVals(members[1..])
    ensures MembersOf(fs) == MemberVals(members)
  {
  }

  // ---------------------------------------------------------------- only layouts are read

  lemma {:induction false} ReadIsLayout(s: string) returns (before: string, l: Layout)
    requires ReadValue(s).Some?
    ensures var (x, rest) := ReadValue(s).value;
            && White(before) && Fit(l) && s == before + Put(l, rest) && Val(l) == ValueOf(x)
            && (l.LNumber? && rest != "" ==> !Extends(l.n, rest[0]))
    decreases |s|, 0
  {
    before := SkippedIsWhite(s);
    var t := SkipSpace(s);
    SkipTwice(s);
    SameAfterSkip(s, t);
    hide Put, Extends, Val, ValueOf, FitChars, FitNumeral, NumberLength, ReadString, SkipSpace;
    if t[0] == '{' || t[0] == '[' {
      l := BracketIsLayout(t);
    } else {
      l := LeafIsLayout(t);
    }
  }

  lemma {:induction false} BracketIsLayout(t: string) returns (l: Layout)
    requires t != "" && (t[0] == '{' || t[0] == '[') && ReadValue(t).Some?
    ensures var (x, rest) := ReadValue(t).value; Fit(l) && !l.LNumber? && t == Put(l, rest) && Val(l) == ValueOf(x)
    decreases |t|, 0, 0
  {
    hide Put, PutSlots, PutMembers, Val, SlotVals, MemberVals, ReadElements, ReadFields, ReadString, NumberLength,
      SkipSpace, FitSlots, FitMembers;
    NoSpace(t);
    var inside := SkippedIsWhite(t[1..]);
    var u := SkipSpace(t[1..]);
    assert t == [t[0]] + t[1..];
    if t[0] == '{' {
      if u != "" && u[0] == '}' {
        l := LObject([], inside);
        EmptyPut(l, u[1..]);
        assert u == "}" + u[1..];
      } else {
        var members := FieldsAreMembers(u);
        l := PrependObject(inside, members, ReadFields(u).value.1);
        ObjectPut(l, ReadFields(u).value.1);
      }
    } else {
      if u != "" && u[0] == ']' {
        l := LArray([], inside);
        EmptyPut(l, u[1..]);
        assert u == "]" + u[1..];
      } else {
        var slots := ElementsAreSlots(u);
        l := PrependArray(inside, slots, ReadElements(u).value.1);
        ArrayPut(l, ReadElements(u).value.1);
      }
    }
  }

  lemma EmptyPut(l: Layout, rest: string)
    requires (l.LArray? && l.slots == []) || (l.LObject? && l.members == [])
    requires White(l.inside)
    ensures Fit(l) && Put(l, rest) == if l.LArray? then "[" + (l.inside + ("]" + rest)) else "{" + (l.inside + ("}" + rest))
    ensures Val(l) == if l.LArray? then Array([]) else Object(map[])
  {
  }

  lemma ArrayPut(l: Layout, rest: string)
    requires Fit(l) && l.LArray? && l.slots != []
    ensures Put(l, rest) == "[" + PutSlots(l.slots, rest) && Val(l) == Array(SlotVals(l.slots))
  {
    hide PutSlots, SlotVals;
  }

  lemma ObjectPut(l: Layout, rest: string)
    requires Fit(l) && l.LObject? && l.members != []
    ensures Put(l, rest) == "{" + PutMembers(l.members, rest) && Val(l) == Object(MemberVals(l.members))
  {
    hide PutMembers, MemberVals;
  }

  /** White space behind the opening bracket belongs to the first slot. */
  lemma PrependArray(w: string, slots: seq<Slot>, rest: string) returns (l: Layout)
    requires White(w) && slots != [] && FitSlots(slots)
    ensures l.LArray? && l.slots != [] && Fit(l) && PutSlots(l.slots, rest) == w + PutSlots(slots, rest)
    ensures SlotVals(l.slots) == SlotVals(slots)
  {
    var first := slots[0].(before := w + slots[0].before);
    var more := [first] + slots[1..];
    l := LArray(more, "");
    assert more[1..] == slots[1..];
    FirstSlot(slots, rest);
    FirstSlot(more, rest);
    hide Put, PutSlots, Val;
    var tail := Put(first.item, first.after + if |more| == 1 then "]" + rest else "," + PutSlots(more[1..], rest));
    Associative(w, slots[0].before, tail);
  }

  lemma PrependObject(w: string, members: seq<Member>, rest: string) returns (l: Layout)
    requires White(w) && members != [] && FitMembers(members)
    ensures l.LObject? && l.members != [] && Fit(l) && PutMembers(l.members, rest) == w + PutMembers(members, rest)
    ensures MemberVals(l.members) == MemberVals(members)
  {
    hide Put, PutMembers, PutKeyed, Val, FitChars;
    var first := members[0].(before := w + members[0].before);
    var more := [first] + members[1..];
    l := LObject(more, "");
    assert more[1..] == members[1..];
    FirstMember(members, rest);
    FirstMember(more, rest);
    BothWhite(w, members[0].before);
    var close := if |more| == 1 then "}" + rest else "," + PutMembers(more[1..], rest);
    SameKeyed(members[0], first.before, close);
    Associative(w, members[0].before, PutKeyed(first, close));
  }

  lemma SameKeyed(m: Member, before: string, tail: string)
    ensures PutKeyed(m.(before := before), tail) == PutKeyed(m, tail)
  {
    hide Put, PutChars;
  }

  lemma Associative(a: string, b: string, c: string)
    ensures (a + b) + c == a + (b + c)
  {
  }

  lemma LeafIsLayout(t: string) returns (l: Layout)
    requires t != "" && t[0] != '{' && t[0] != '[' && SkipSpace(t) == t && ReadValue(t).Some?
    ensures var (x, rest) := ReadValue(t).value;
            && Fit(l) && t == Put(l, rest) && Val(l) == ValueOf(x)
            && (l.LNumber? && rest != "" ==> !Extends(l.n, rest[0]))
  {
    hide ReadElements, ReadFields, ReadString, NumberLength, PutNumeral, PutChars, FitNumeral, FitChars, Extends, CharsOf, SkipSpace;
    var (x, rest) := ReadValue(t).value;
    if t[0] == '"' {
      var chars := StringIsRead(t[1..]);
      l := LStr(chars);
      assert t == "\"" + t[1..];
    } else if t[0] == 'n' {
      l := LNull;
      assert t == "null" + rest;
    } else if t[0] == 't' {
      l := LBool(true);
      assert t == "true" + rest;
    } else if t[0] == 'f' {
      l := LBool(false);
      assert t == "false" + rest;
    } else {
      var n, after := NumeralIsRead(t);
      var k := |t| - |after|;
      PutNumeralSplits(n, after);
      assert t[..k] == PutNumeral(n, "") && t[k..] == after;
      l := LNumber(n);
    }
  }

  lemma {:induction false} ElementsAreSlots(s: string) returns (slots: seq<Slot>)
    requires ReadElements(s).Some?
    ensures var (es, rest) := ReadElements(s).value;
            slots != [] && FitSlots(slots) && s == PutSlots(slots, rest) && SlotVals(slots) == ItemsOf(es)
    decreases |s|, 2
  {
    hide ReadValue, Put, Val, ValueOf, SkipSpace, Fit, Extends;
    var w := SkippedIsWhite(s);
    var t := SkipSpace(s);
    var v, l := ReadIsLayout(t);
    var (x, after) := ReadValue(t).value;
    var w2 := SkippedIsWhite(after);
    var u := SkipSpace(after);
    var slot := Slot(w + v, l, w2);
    BothWhite(w, v);
    assert u == [u[0]] + u[1..];
    assert s == (w + v) + Put(l, after) by { assert w + (v + Put(l, after)) == (w + v) + Put(l, after); }
    var (es, rest) := ReadElements(s).value;
    if u[0] == ']' {
      slots := [slot];
      assert es[1..] == [];
    } else {
      var more := ElementsAreSlots(u[1..]);
      slots := [slot] + more;
      assert slots[1..] == more && es[1..] == ReadElements(u[1..]).value.0;
    }
    FirstSlot(slots, rest);
  }

  lemma BothWhite(a: string, b: string)
    requires White(a) && White(b)
    ensures White(a + b)
  {
  }

  lemma {:induction false} FieldsAreMembers(s: string) returns (members: seq<Member>)
    requires ReadFields(s).Some?
    ensures var (fs, rest) := ReadFields(s).value;
            members != [] && FitMembers(members) && s == PutMembers(members, rest) && MemberVals(members) == MembersOf(fs)
    decreases |s|, 2
  {
    hide ReadValue, ReadString, Put, PutChars, FitChars, CharsOf, Val, ValueOf, SkipSpace, Fit, Extends;
    var before := SkippedIsWhite(s);
    var t := SkipSpace(s);
    var key := StringIsRead(t[1..]);
    var behindKey := ReadString(t[1..]).value.1;
    var beforeColon := SkippedIsWhite(behindKey);
    var colon := SkipSpace(behindKey);
    var afterColon, l := ReadIsLayout(colon[1..]);
    var (x, after) := ReadValue(colon[1..]).value;
    var w := SkippedIsWhite(after);
    var u := SkipSpace(after);
    var m := Member(before, key, beforeColon, afterColon, l, w);
    assert t == "\"" + t[1..] && colon == ":" + colon[1..] && u == [u[0]] + u[1..];
    var (fs, rest) := ReadFields(s).value;
    if u[0] == '}' {
      members := [m];
      assert fs[1..] == [] && after == w + ("}" + rest);
    } else {
      var more := FieldsAreMembers(u[1..]);
      members := [m] + more;
      assert members[1..] == more && fs[1..] == ReadFields(u[1..]).value.0;
      assert after == w + ("," + PutMembers(more, rest));
    }
    FirstMember(members, rest);
    MembersAgree(members, fs);
  }

  // ---------------------------------------------------------------- main results

  /** The reader takes the longest value at the front of a text, whatever its layout, and nothing else. */
  lemma ReadsExactly(text: string, v: Value, rest: string)
    ensures Starts(text, v, rest) <==>
              ReadValue(text).Some? && ValueOf(ReadValue(text).value.0) == v && ReadValue(text).value.1 == rest
  {
    hide ReadValue, Put, Val, ValueOf, Extends, Fit;
    if Starts(text, v, rest) {
      var l, before :| Fit(l) && White(before) && text == before + Put(l, rest) && Val(l) == v
                       && (l.LNumber? && rest != "" ==> !Extends(l.n, rest[0]));
      var x := LayoutReads(l, before, rest);
    }
    if ReadValue(text).Some? {
      var before, l := ReadIsLayout(text);
    }
  }

  /** A text is one whole value for `json.Unmarshal` exactly if it spells one. */
  lemma UnmarshalsExactly(text: string, v: Value)
    ensures Spells(text, v) <==> Unmarshal(text).Some? && ValueOf(Unmarshal(text).value) == v
  {
    hide ReadValue, Put, Val, ValueOf, Extends, Fit, SkipSpace;
    if Spells(text, v) {
      var l: Layout, before: string, after: string :|
        Fit(l) && White(before) && White(after) && text == before + Put(l, after) && Val(l) == v;
      WhiteExtendsNothing(l, after);
      var x := LayoutReads(l, before, after);
      SkipsWhite(after, "");
      assert after + "" == after;
    }
    if Unmarshal(text).Some? {
      var before, l := ReadIsLayout(text);
      var after := ReadValue(text).value.1;
      var w := SkippedIsWhite(after);
      assert w + "" == w;
    }
  }

  lemma WhiteExtendsNothing(l: Layout, after: string)
    requires White(after)
    ensures l.LNumber? && after != "" ==> !Extends(l.n, after[0])
  {
    assert after != "" ==> after[0] in after;
  }

  /** What a section means is the value its text starts with, and nothing if that is null or there is no text. */
  lemma MeaningExactly(raw: string, v: Value)
    ensures v != Null ==> (MeaningOf(raw) == Means(v) <==> exists rest :: Starts(raw, v, rest))
    ensures MeaningOf(raw) == Nothing <==> raw == "" || exists rest :: Starts(raw, Null, rest)
  {
    hide Starts, ReadValue;
    if raw != "" && ReadValue(raw).Some? {
      var (x, rest) := ReadValue(raw).value;
      ReadsExactly(raw, ValueOf(x), rest);
    }
    forall w: Value, rest: string | Starts(raw, w, rest) ensures ReadValue(raw).Some? && ValueOf(ReadValue(raw).value.0) == w {
      ReadsExactly(raw, w, rest);
    }
    if raw == "" {
      NoValueInNothing();
    }
  }

  lemma NoValueInNothing()
    ensures ReadValue("") == None
  {
  }

  /**
  The section comparison is indifferent to layout: texts that spell values compare as equal exactly if
  they spell the same one, with whatever white space, spelling of characters and order of members.
  */
  lemma SpellingsCompareByValue(a: string, b: string, v: Value, w: Value)
    requires Spells(a, v) && Spells(b, w)
    ensures RawEqualNormalized(a, b) <==> v == w
  {
    hide Spells, RawEqualNormalized, ReadValue;
    UnmarshalsExactly(a, v);
    UnmarshalsExactly(b, w);
    RawEqualDecidesMeaning(a, b);
    if a == "" || b == "" {
      NoValueInNothing();
    }
  }

  /** The canonical text of a value spells it. */
  lemma CanonicalSpells(v: Value)
    requires WellFormed(v)
    ensures Spells(Encode(v), v)
  {
    hide Spells, ReadValue;
    var x := ReadBack(v, "");
    assert Encode(v) + "" == Encode(v);
    UnmarshalsExactly(Encode(v), v);
  }

  lemma {:induction false} MembersFit(members: seq<Member>, i: nat)
    requires FitMembers(members) && i < |members|
    ensures FitChars(members[i].key) && Fit(members[i].item) && FitMembers(members[i..])
    ensures CharsOf(members[i].key) in MemberVals(members)
  {
    hide Val, CharsOf, FitChars, Fit;
    if i > 0 {
      MembersFit(members[1..], i - 1);
      assert members[1..][i - 1] == members[i] && members[1..][i - 1..] == members[i..];
    } else {
      assert members[0..] == members;
    }
  }

  lemma {:induction false} NoSuchMember(members: seq<Member>, key: string)
    requires FitMembers(members)
    requires forall j :: 0 <= j < |members| && FitChars(members[j].key) ==> CharsOf(members[j].key) != key
    ensures key !in MemberVals(members)
  {
    hide Val, CharsOf, FitChars, Fit;
    if members != [] {
      assert CharsOf(members[0].key) != key;
      forall j | 0 <= j < |members[1..]| && FitChars(members[1..][j].key) ensures CharsOf(members[1..][j].key) != key {
        assert members[1..][j] == members[j + 1];
      }
      NoSuchMember(members[1..], key);
    }
  }

  /** A member has its value in the object unless a later one has the same key; so the order of others does not matter. */
  lemma {:induction false} LastMemberWins(members: seq<Member>, i: nat)
    requires FitMembers(members) && i < |members| && FitChars(members[i].key) && Fit(members[i].item)
    requires forall j :: i < j < |members| && FitChars(members[j].key) ==> CharsOf(members[j].key) != CharsOf(members[i].key)
    ensures CharsOf(members[i].key) in MemberVals(members)
    ensures MemberVals(members)[CharsOf(members[i].key)] == Val(members[i].item)
  {
    hide Val, CharsOf, FitChars, Fit;
    var key := CharsOf(members[i].key);
    forall j | i <= j < |members[1..]| && FitChars(members[1..][j].key) ensures CharsOf(members[1..][j].key) != key {
      assert members[1..][j] == members[j + 1];
    }
    if i == 0 {
      NoSuchMember(members[1..], key);
    } else {
      assert members[1..][i - 1] == members[i];
      LastMemberWins(members[1..], i - 1);
    }
  }
}
