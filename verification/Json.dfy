/**
JSON as the panel reads and prints it (Go's `encoding/json`, section 2 to 7 of RFC 8259):
a reader for the raw text of a section, the tree it stands for, and the canonical printer
behind `canonicalJSON`. The reader keeps members in text order, with duplicates, because
typed decoding and `map[string]any` decoding treat duplicates differently.
*/
module Json {
  import opened Text

  /** What `Decode(&value)` with `UseNumber` leaves in an `any`; numbers keep their digits. */
  datatype Value =
    | Null
    | Bool(b: bool)
    | Number(text: string)
    | Str(text: string)
    | Array(items: seq<Value>)
    | Object(members: map<string, Value>)

  /** A parsed text, member order and duplicates kept; an element remembers its raw text. */
  datatype Syntax =
    | SNull
    | SBool(b: bool)
    | SNumber(text: string)
    | SStr(text: string)
    | SArray(elements: seq<Element>)
    | SObject(fields: seq<Field>)
  datatype Element = Element(raw: string, value: Syntax)
  datatype Field = Field(key: string, value: Syntax)

  // ---------------------------------------------------------------- the tree of a text

  function ValueOf(x: Syntax): Value {
    match x
    case SNull => Null
    case SBool(b) => Bool(b)
    case SNumber(t) => Number(t)
    case SStr(t) => Str(t)
    case SArray(es) => Array(ItemsOf(es))
    case SObject(fs) => Object(MembersOf(fs))
  }

  function ItemsOf(es: seq<Element>): seq<Value> {
    if es == [] then [] else [ValueOf(es[0].value)] + ItemsOf(es[1..])
  }

  /** A later member replaces an earlier one with the same key. */
  function MembersOf(fs: seq<Field>): map<string, Value> {
    if fs == [] then map[] else map[fs[0].key := ValueOf(fs[0].value)] + MembersOf(fs[1..])
  }

  // ---------------------------------------------------------------- numbers

  /** Length of `0` or of a run not starting with `0`; 0 when there is no digit. */
  function IntLength(s: string): (n: nat)
    ensures n <= |s|
  {
    if s != "" && s[0] == '0' then 1 else DigitRun(s)
  }

  function FractionLength(s: string): (n: Option<nat>)
    ensures n.Some? ==> n.value <= |s|
  {
    if s == "" || s[0] != '.' then Some(0)
    else if DigitRun(s[1..]) == 0 then None
    else Some(1 + DigitRun(s[1..]))
  }

  function SignLength(s: string): (n: nat)
    ensures n <= |s|
  {
    if s != "" && (s[0] == '+' || s[0] == '-') then 1 else 0
  }

  function ExponentLength(s: string): (n: Option<nat>)
    ensures n.Some? ==> n.value <= |s|
  {
    if s == "" || (s[0] != 'e' && s[0] != 'E') then Some(0)
    else
      var t := s[1..];
      var digits := DigitRun(t[SignLength(t)..]);
      if digits == 0 then None else Some(1 + SignLength(t) + digits)
  }

  /** Length of the longest number at the front of `s` (section 6 of RFC 8259). */
  function NumberLength(s: string): (n: Option<nat>)
    ensures n.Some? ==> 0 < n.value <= |s|
  {
    var minus := if s != "" && s[0] == '-' then 1 else 0;
    match UnsignedLength(s[minus..])
    case None => None
    case Some(n) => Some(minus + n)
  }

  function UnsignedLength(s: string): (n: Option<nat>)
    ensures n.Some? ==> 0 < n.value <= |s|
  {
    var whole := IntLength(s);
    if whole == 0 then None
    else
      match TailLength(s[whole..])
      case None => None
      case Some(tail) => Some(whole + tail)
  }

  /** Length of the fraction and exponent at the front of `s`. */
  function TailLength(s: string): (n: Option<nat>)
    ensures n.Some? ==> n.value <= |s|
  {
    match FractionLength(s)
    case None => None
    case Some(fraction) =>
      match ExponentLength(s[fraction..])
      case None => None
      case Some(exponent) => Some(fraction + exponent)
  }

  predicate ValidNumber(t: string) { NumberLength(t) == Some(|t|) }

  // ---------------------------------------------------------------- strings

  /** Four hexadecimal digits at the front of `s`, or -1. */
  function Hex4(s: string): (n: int)
    ensures -1 <= n < 0x10000 && (n >= 0 ==> |s| >= 4)
  {
    if |s| < 4 then -1
    else
      var a, b, c, d := HexValue(s[0]), HexValue(s[1]), HexValue(s[2]), HexValue(s[3]);
      if a < 0 || b < 0 || c < 0 || d < 0 then -1 else 4096 * a + 256 * b + 16 * c + d
  }

  const REPLACEMENT: char := 0xFFFD as char

  /** The second half of a surrogate pair, written `\uXXXX` at the front of `s`, or -1. */
  function LowSurrogate(s: string): (n: int)
    ensures n >= 0 ==> 0xDC00 <= n < 0xE000 && |s| >= 6
  {
    if |s| >= 6 && s[0] == '\\' && s[1] == 'u' && 0xDC00 <= Hex4(s[2..]) < 0xE000 then Hex4(s[2..]) else -1
  }

  /** The character of `\uXXXX` and how much text after the four digits it takes. */
  function UnicodeEscape(h: int, after: string): (r: (char, nat))
    requires 0 <= h < 0x10000
    ensures r.1 <= |after|
  {
    if 0xD800 <= h < 0xDC00 && LowSurrogate(after) >= 0 then
      ((0x10000 + (h - 0xD800) * 1024 + (LowSurrogate(after) - 0xDC00)) as char, 6)
    else if 0xD800 <= h < 0xE000 then (REPLACEMENT, 0)
    else (h as char, 0)
  }

  /** One character of a string literal: the character and the length of its spelling. */
  function ReadChar(s: string): (r: Option<(char, nat)>)
    ensures r.Some? ==> 0 < r.value.1 <= |s|
  {
    if s == "" || s[0] < ' ' || s[0] == '"' then None
    else if s[0] != '\\' then Some((s[0], 1))
    else if |s| < 2 then None
    else
      match s[1]
      case '"' => Some(('"', 2))
      case '\\' => Some(('\\', 2))
      case '/' => Some(('/', 2))
      case 'b' => Some((8 as char, 2))
      case 'f' => Some((12 as char, 2))
      case 'n' => Some(('\n', 2))
      case 'r' => Some(('\r', 2))
      case 't' => Some(('\t', 2))
      case 'u' =>
        var h := Hex4(s[2..]);
        if h < 0 then None
        else
          var (c, more) := UnicodeEscape(h, s[6..]);
          Some((c, 6 + more))
      case _ => None
  }

  /** The text after an opening quote: the string and what follows its closing quote. */
  function ReadString(s: string): (r: Option<(string, string)>)
    ensures r.Some? ==> |r.value.1| < |s|
    decreases |s|
  {
    if s != "" && s[0] == '"' then Some(("", s[1..]))
    else
      match ReadChar(s)
      case None => None
      case Some((c, n)) =>
        match ReadString(s[n..])
        case None => None
        case Some((t, rest)) => Some(([c] + t, rest))
  }

  // ---------------------------------------------------------------- the reader

  function SkipSpace(s: string): (r: string)
    ensures |r| <= |s|
  {
    if s != "" && (s[0] == ' ' || s[0] == '\t' || s[0] == '\n' || s[0] == '\r') then SkipSpace(s[1..]) else s
  }

  function ReadWord(s: string, word: string, x: Syntax): (r: Option<(Syntax, string)>)
    requires word != ""
    ensures r.Some? ==> |r.value.1| < |s|
  {
    if word <= s then Some((x, s[|word|..])) else None
  }

  /** The first value of `s` and the text after it, as `json.Decoder.Decode` reads it. */
  function ReadValue(s: string): (r: Option<(Syntax, string)>)
    ensures r.Some? ==> |r.value.1| < |s|
    decreases |s|, 0
  {
    var t := SkipSpace(s);
    if t == "" then None
    else
      match t[0]
      case '{' =>
        var u := SkipSpace(t[1..]);
        if u != "" && u[0] == '}' then Some((SObject([]), u[1..]))
        else
          (match ReadFields(u)
           case None => None
           case Some((fs, rest)) => Some((SObject(fs), rest)))
      case '[' =>
        var u := SkipSpace(t[1..]);
        if u != "" && u[0] == ']' then Some((SArray([]), u[1..]))
        else
          (match ReadElements(u)
           case None => None
           case Some((es, rest)) => Some((SArray(es), rest)))
      case '"' =>
        (match ReadString(t[1..])
         case None => None
         case Some((text, rest)) => Some((SStr(text), rest)))
      case 'n' => ReadWord(t, "null", SNull)
      case 't' => ReadWord(t, "true", SBool(true))
      case 'f' => ReadWord(t, "false", SBool(false))
      case _ =>
        match NumberLength(t)
        case None => None
        case Some(n) => Some((SNumber(t[..n]), t[n..]))
  }

  function ReadElements(s: string): (r: Option<(seq<Element>, string)>)
    ensures r.Some? ==> |r.value.1| < |s|
    decreases |s|, 1
  {
    var t := SkipSpace(s);
    match ReadValue(t)
    case None => None
    case Some((x, rest)) =>
      var e := Element(t[..|t| - |rest|], x);
      var u := SkipSpace(rest);
      if u == "" then None
      else if u[0] == ']' then Some(([e], u[1..]))
      else if u[0] != ',' then None
      else
        match ReadElements(u[1..])
        case None => None
        case Some((es, after)) => Some(([e] + es, after))
  }

  function ReadFields(s: string): (r: Option<(seq<Field>, string)>)
    ensures r.Some? ==> |r.value.1| < |s|
    decreases |s|, 1
  {
    var t := SkipSpace(s);
    if t == "" || t[0] != '"' then None
    else
      match ReadString(t[1..])
      case None => None
      case Some((key, rest)) =>
        var colon := SkipSpace(rest);
        if colon == "" || colon[0] != ':' then None
        else
          match ReadValue(colon[1..])
          case None => None
          case Some((x, rest')) =>
            var u := SkipSpace(rest');
            if u == "" then None
            else if u[0] == '}' then Some(([Field(key, x)], u[1..]))
            else if u[0] != ',' then None
            else
              match ReadFields(u[1..])
              case None => None
              case Some((fs, after)) => Some(([Field(key, x)] + fs, after))
  }

  /** `json.Unmarshal`: the whole text must be one value. `json.Valid` is this being Some. */
  function Unmarshal(s: string): Option<Syntax> {
    match ReadValue(s)
    case None => None
    case Some((x, rest)) => if SkipSpace(rest) == "" then Some(x) else None
  }

  // ---------------------------------------------------------------- the printer

  function Hex4Digits(n: nat): (s: string)
    requires n < 0x10000
    ensures |s| == 4
  {
    [LowerHex(n / 4096), LowerHex(n / 256 % 16), LowerHex(n / 16 % 16), LowerHex(n % 16)]
  }

  /** `json.Marshal` escapes HTML characters and the two line separators as well. */
  function EscapeChar(c: char): (s: string)
    ensures s != ""
  {
    if c == '"' then "\\\""
    else if c == '\\' then "\\\\"
    else if c == 8 as char then "\\b"
    else if c == 12 as char then "\\f"
    else if c == '\n' then "\\n"
    else if c == '\r' then "\\r"
    else if c == '\t' then "\\t"
    else if c < ' ' || c == '<' || c == '>' || c == '&' || c as int == 0x2028 || c as int == 0x2029 then
      "\\u" + Hex4Digits(c as int)
    else [c]
  }

  function EscapeAll(s: string): string {
    if s == "" then "" else EscapeChar(s[0]) + EscapeAll(s[1..])
  }

  /** Printed text holds no control character, none of `<`, `>` and `&`, and no line separator. */
  lemma {:induction false} EscapedIsSafe(s: string)
    ensures forall c :: c in EscapeAll(s) ==> c >= ' ' && c !in "<>&" && c as int != 0x2028 && c as int != 0x2029
  {
    if s != "" {
      EscapedIsSafe(s[1..]);
      CharIsSafe(s[0]);
    }
  }

  lemma CharIsSafe(c: char)
    ensures forall d :: d in EscapeChar(c) ==> d >= ' ' && d !in "<>&" && d as int != 0x2028 && d as int != 0x2029
  {
    if c as int < 0x10000 {
      HexIsAscii(c as int);
    }
  }

  lemma HexIsAscii(n: nat)
    requires n < 0x10000
    ensures forall d :: d in Hex4Digits(n) ==> '0' <= d <= '9' || 'a' <= d <= 'f'
  {
  }

  function Quote(s: string): string { "\"" + EscapeAll(s) + "\"" }

  /** `json.Marshal` of a decoded value: sorted keys, no spaces, numbers digit for digit. */
  function Encode(v: Value): string
    decreases v, 1
  {
    match v
    case Null => "null"
    case Bool(b) => if b then "true" else "false"
    case Number(t) => t
    case Str(t) => Quote(t)
    case Array(items) => if items == [] then "[]" else "[" + EncodeItems(items) + "]"
    case Object(m) => if m == map[] then "{}" else "{" + EncodeMembers(v, Sorted(m.Keys)) + "}"
  }

  function EncodeItems(items: seq<Value>): string
    decreases items, 0
  {
    if items == [] then ""
    else if |items| == 1 then Encode(items[0])
    else Encode(items[0]) + "," + EncodeItems(items[1..])
  }

  function EncodeMembers(v: Value, ks: seq<string>): string
    requires v.Object?
    decreases v, 0, ks
  {
    if ks == [] || ks[0] !in v.members then ""
    else
      var head := Quote(ks[0]) + ":" + Encode(v.members[ks[0]]);
      if |ks| == 1 then head else head + "," + EncodeMembers(v, ks[1..])
  }

  // ---------------------------------------------------------------- reading back strings and numbers

  lemma FourDigits(n: nat)
    requires n < 0x10000
    ensures n / 4096 < 16 && n == 4096 * (n / 4096) + 256 * (n / 256 % 16) + 16 * (n / 16 % 16) + n % 16
  {
    assert n / 256 == 16 * (n / 4096) + n / 256 % 16;
    assert n / 16 == 16 * (n / 256) + n / 16 % 16;
  }

  lemma Hex4ReadBack(n: nat, rest: string)
    requires n < 0x10000
    ensures Hex4(Hex4Digits(n) + rest) == n
  {
    var a, b, c, d := n / 4096, n / 256 % 16, n / 16 % 16, n % 16;
    FourDigits(n);
    hide LowerHex, HexValue;
    HexReadsBack(a);
    HexReadsBack(b);
    HexReadsBack(c);
    HexReadsBack(d);
    var s := Hex4Digits(n) + rest;
    assert s[0] == LowerHex(a) && s[1] == LowerHex(b) && s[2] == LowerHex(c) && s[3] == LowerHex(d);
  }

  lemma CharReadBack(c: char, rest: string)
    ensures ReadChar(EscapeChar(c) + rest) == Some((c, |EscapeChar(c)|))
  {
    hide Hex4, Hex4Digits, LowSurrogate;
    var s := EscapeChar(c) + rest;
    if |EscapeChar(c)| == 6 {
      assert s[2..] == Hex4Digits(c as int) + rest;
      Hex4ReadBack(c as int, rest);
    }
  }

  lemma {:induction false} StringReadBack(t: string, rest: string)
    ensures ReadString(EscapeAll(t) + "\"" + rest) == Some((t, rest))
  {
    var s := EscapeAll(t) + "\"" + rest;
    if t == "" {
      assert s[1..] == rest;
    } else {
      var tail := EscapeAll(t[1..]) + "\"" + rest;
      assert s == EscapeChar(t[0]) + tail;
      CharReadBack(t[0], tail);
      assert s[|EscapeChar(t[0])|..] == tail;
      StringReadBack(t[1..], rest);
      assert [t[0]] + t[1..] == t;
    }
  }

  /** No character of `rest` could extend a number. */
  predicate Delimited(rest: string) {
    rest == "" || !(IsDigit(rest[0]) || rest[0] == '.' || rest[0] == 'e' || rest[0] == 'E' || rest[0] == '+' || rest[0] == '-')
  }

  lemma {:induction false} DigitRunLocal(s: string, rest: string)
    requires rest == "" || !IsDigit(rest[0])
    ensures DigitRun(s + rest) == DigitRun(s)
  {
    if s == "" {
      assert s + rest == rest;
    } else {
      assert (s + rest)[1..] == s[1..] + rest;
      DigitRunLocal(s[1..], rest);
    }
  }

  lemma DropLeft(a: string, b: string, n: nat)
    requires n <= |a|
    ensures (a + b)[n..] == a[n..] + b
  {}

  lemma ExponentLocal(s: string, rest: string)
    requires Delimited(rest)
    ensures ExponentLength(s + rest) == ExponentLength(s)
  {
    if s == "" {
      assert s + rest == rest;
    } else {
      var t := s[1..];
      DropLeft(s, rest, 1);
      if t == "" { assert t + rest == rest; }
      var n := SignLength(t);
      assert SignLength(t + rest) == n;
      DropLeft(t, rest, n);
      DigitRunLocal(t[n..], rest);
    }
  }

  lemma FractionLocal(s: string, rest: string)
    requires Delimited(rest)
    ensures FractionLength(s + rest) == FractionLength(s)
  {
    if s == "" {
      assert s + rest == rest;
    } else {
      DropLeft(s, rest, 1);
      DigitRunLocal(s[1..], rest);
    }
  }

  lemma TailLocal(s: string, rest: string)
    requires Delimited(rest)
    ensures TailLength(s + rest) == TailLength(s)
  {
    FractionLocal(s, rest);
    match FractionLength(s)
    case None =>
    case Some(n) =>
      DropLeft(s, rest, n);
      ExponentLocal(s[n..], rest);
  }

  lemma IntLocal(s: string, rest: string)
    requires Delimited(rest)
    ensures IntLength(s + rest) == IntLength(s)
  {
    DigitRunLocal(s, rest);
    if s == "" { assert s + rest == rest; }
  }

  lemma UnsignedLocal(s: string, rest: string)
    requires Delimited(rest)
    ensures UnsignedLength(s + rest) == UnsignedLength(s)
  {
    hide IntLength, TailLength;
    IntLocal(s, rest);
    var whole := IntLength(s);
    DropLeft(s, rest, whole);
    TailLocal(s[whole..], rest);
  }

  /** The number at the front of a text does not depend on what follows a delimiter. */
  lemma NumberLocal(s: string, rest: string)
    requires Delimited(rest)
    ensures NumberLength(s + rest) == NumberLength(s)
  {
    if s == "" { assert s + rest == rest; }
    var minus := if s != "" && s[0] == '-' then 1 else 0;
    DropLeft(s, rest, minus);
    UnsignedLocal(s[minus..], rest);
  }
}
