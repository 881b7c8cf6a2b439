/**
Percent-encoding as `net/url` does it (sections 2.1 and 2.3 of RFC 3986), with `+` for a space
in queries. Every character of a string stands for one byte.
*/
module Percent {
  import opened Text

  predicate ByteText(s: string) { forall i :: 0 <= i < |s| ==> s[i] as int < 256 }

  predicate Unreserved(c: char) {
    || 'a' <= c <= 'z' || 'A' <= c <= 'Z' || '0' <= c <= '9'
    || c == '-' || c == '_' || c == '.' || c == '~'
  }

  function Escaped(c: char, space: string): string
    requires c as int < 256
  {
    if Unreserved(c) then [c] else if c == ' ' then space
    else ['%', UpperHex(c as int / 16), UpperHex(c as int % 16)]
  }

  /** Every byte escaped, a space as `space`. */
  function EscapeWith(s: string, space: string): string
    requires ByteText(s)
  {
    if s == "" then "" else Escaped(s[0], space) + EscapeWith(s[1..], space)
  }

  /** `url.QueryEscape`. */
  function QueryEscape(s: string): string
    requires ByteText(s)
  {
    EscapeWith(s, "+")
  }

  /** `strings.ReplaceAll(s, "+", "%20")`. */
  function PlusToSpaceEscape(s: string): string {
    if s == "" then "" else (if s[0] == '+' then "%20" else [s[0]]) + PlusToSpaceEscape(s[1..])
  }

  /** `encodeUserinfo`: also how a remark becomes a fragment. */
  function EncodeUserinfo(s: string): string
    requires ByteText(s)
  {
    PlusToSpaceEscape(QueryEscape(s))
  }

  /** The reader: `%XX` is one byte, in a query `+` is a space, a broken escape is an error. */
  function Unescape(s: string, query: bool): Option<string>
    decreases |s|
  {
    if s == "" then Some("")
    else if s[0] == '%' then
      if |s| >= 3 && HexValue(s[1]) >= 0 && HexValue(s[2]) >= 0 then
        match Unescape(s[3..], query)
        case None => None
        case Some(rest) => Some([(16 * HexValue(s[1]) + HexValue(s[2])) as char] + rest)
      else None
    else
      match Unescape(s[1..], query)
      case None => None
      case Some(rest) => Some([if query && s[0] == '+' then ' ' else s[0]] + rest)
  }

  lemma HexIsUnreserved(d: nat)
    requires d < 16
    ensures HexValue(UpperHex(d)) == d && Unreserved(UpperHex(d))
  {
  }

  lemma PlusToSpaceEscapeConcat(a: string, b: string)
    ensures PlusToSpaceEscape(a + b) == PlusToSpaceEscape(a) + PlusToSpaceEscape(b)
  {
    if a == "" {
      assert a + b == b;
    } else {
      assert (a + b)[1..] == a[1..] + b;
      PlusToSpaceEscapeConcat(a[1..], b);
    }
  }

  lemma EscapedUserinfo(c: char)
    requires c as int < 256
    ensures PlusToSpaceEscape(Escaped(c, "+")) == Escaped(c, "%20")
  {
    var e := Escaped(c, "+");
    HexIsUnreserved(c as int / 16);
    HexIsUnreserved(c as int % 16);
    PlusToSpaceEscapeStays(e);
    if e == "+" {
      assert e[1..] == "";
    }
  }

  lemma {:induction false} PlusToSpaceEscapeStays(s: string)
    ensures '+' !in s ==> PlusToSpaceEscape(s) == s
  {
    if s != "" {
      PlusToSpaceEscapeStays(s[1..]);
    }
  }

  lemma {:induction false} EncodeUserinfoEscapes(s: string)
    requires ByteText(s)
    ensures EncodeUserinfo(s) == EscapeWith(s, "%20")
  {
    if s != "" {
      EncodeUserinfoEscapes(s[1..]);
      EscapedUserinfo(s[0]);
      PlusToSpaceEscapeConcat(Escaped(s[0], "+"), EscapeWith(s[1..], "+"));
    }
  }

  /** What an escaped text may contain. */
  predicate Plain(s: string) { forall c :: c in s ==> Unreserved(c) || c == '%' || c == '+' }

  lemma {:induction false} EscapedIsPlain(s: string, space: string)
    requires ByteText(s) && space in {"+", "%20"}
    ensures Plain(EscapeWith(s, space))
  {
    if s != "" {
      EscapedIsPlain(s[1..], space);
      HexIsUnreserved(s[0] as int / 16);
      HexIsUnreserved(s[0] as int % 16);
      assert Plain(Escaped(s[0], space));
    }
  }

  lemma UnescapeStep(c: char, space: string, rest: string, query: bool)
    requires c as int < 256 && (if query then space == "+" else space == "%20")
    requires Unescape(rest, query).Some?
    ensures Unescape(Escaped(c, space) + rest, query) == Some([c] + Unescape(rest, query).value)
  {
    var e := Escaped(c, space);
    assert (e + rest)[|e|..] == rest;
    if |e| == 3 && c != ' ' {
      hide HexValue, UpperHex, Unreserved;
      HexIsUnreserved(c as int / 16);
      HexIsUnreserved(c as int % 16);
    }
  }

  lemma {:induction false} UnescapeEscape(s: string, space: string, query: bool)
    requires ByteText(s) && (if query then space == "+" else space == "%20")
    ensures Unescape(EscapeWith(s, space), query) == Some(s)
  {
    if s != "" {
      UnescapeEscape(s[1..], space, query);
      UnescapeStep(s[0], space, EscapeWith(s[1..], space), query);
      assert [s[0]] + s[1..] == s;
    }
  }

  /** `url.QueryUnescape` undoes `url.QueryEscape`, for every byte string. */
  lemma QueryReadsBack(s: string)
    requires ByteText(s)
    ensures Unescape(QueryEscape(s), true) == Some(s) && Plain(QueryEscape(s))
  {
    UnescapeEscape(s, "+", true);
    EscapedIsPlain(s, "+");
  }

  /** The encoding of passwords and remarks is undone by plain percent-decoding. */
  lemma UserinfoReadsBack(s: string)
    requires ByteText(s)
    ensures Unescape(EncodeUserinfo(s), false) == Some(s) && Plain(EncodeUserinfo(s))
  {
    EncodeUserinfoEscapes(s);
    UnescapeEscape(s, "%20", false);
    EscapedIsPlain(s, "%20");
  }

  /** Characters section 2.3 of RFC 3986 never escapes. */
  predicate NeedsNoEscape(c: char) {
    c in "-._~" || In(c, '0', '9') || In(c, 'A', 'Z') || In(c, 'a', 'z')
  }

  predicate In(c: char, first: char, last: char) { first as int <= c as int <= last as int }

  /** Nothing is escaped that may stay, and the digits of escapes are upper case. */
  lemma {:induction false} EscapesOnlyTheRest(s: string, space: string)
    requires ByteText(s) && space in {"+", "%20"}
    ensures EscapeWith(s, space) == s <==> forall c :: c in s ==> NeedsNoEscape(c)
    ensures |EscapeWith(s, space)| >= |s|
    ensures forall c :: c in EscapeWith(s, space) && In(c, 'a', 'z') ==> c in s
    ensures '+' in EscapeWith(s, space) <==> space == "+" && ' ' in s
  {
    if s != "" {
      EscapesOnlyTheRest(s[1..], space);
      EscapedChar(s[0], space);
      assert s == [s[0]] + s[1..];
      hide Escaped, NeedsNoEscape, In;
      var e, more := Escaped(s[0], space), EscapeWith(s[1..], space);
      assert EscapeWith(s, space) == e + more;
      assert e == [s[0]] ==> (e + more)[1..] == more;
      assert e + more == s ==> (e + more)[0] == s[0];
    }
  }

  lemma EscapedChar(c: char, space: string)
    requires c as int < 256 && space in {"+", "%20"}
    ensures var e := Escaped(c, space);
            && e != "" && (e == [c] <==> NeedsNoEscape(c)) && (e[0] == c <==> NeedsNoEscape(c) || c == '%')
            && (forall d :: d in e && In(d, 'a', 'z') ==> d == c) && ('+' in e <==> space == "+" && c == ' ')
  {
  }

  /** Unescaping leaves exactly the texts alone that hold neither `+` nor `%`. */
  lemma {:induction false} UnescapeStays(s: string)
    ensures Unescape(s, true).Some? ==> |Unescape(s, true).value| <= |s|
    ensures Unescape(s, true).Some? && '%' in s ==> |Unescape(s, true).value| < |s|
    ensures Unescape(s, true) == Some(s) <==> '%' !in s && '+' !in s
    decreases |s|
  {
    if s != "" && s[0] == '%' {
      if |s| >= 3 {
        UnescapeStays(s[3..]);
      }
    } else if s != "" {
      UnescapeStays(s[1..]);
      assert s == [s[0]] + s[1..];
      var u := Unescape(s, true);
      if u.Some? {
        assert u.value[1..] == Unescape(s[1..], true).value;
      }
    }
  }
}
