/**
Remark templates (internal/sub/remark_vars.go:62-123, 476-526): single-brace tokens become
double-brace placeholders, and every link of a client but the first drops the usage part. A
template is translated twice on its way out, which must not change it. Characters are runes; which
of them are letters or digits is a parameter.
*/
module RemarkTemplate {
  import opened Text

  /** `usageInfoTokens`. */
  const USAGE_TOKENS: seq<string> := [
    "TRAFFIC_USED", "TRAFFIC_LEFT", "TRAFFIC_TOTAL", "TRAFFIC_USED_BYTES", "TRAFFIC_LEFT_BYTES", "TRAFFIC_TOTAL_BYTES",
    "UP", "DOWN", "DAYS_LEFT", "EXPIRE_DATE", "EXPIRE_UNIX", "STATUS",
    "STATUS_EMOJI", "USAGE_PERCENTAGE", "TIME_LEFT", "JALALI_EXPIRE_DATE"]

  // ---------------------------------------------------------------- translation

  predicate BraceFree(s: string) { '{' !in s && '}' !in s }

  /** `uiTokenMap`: the internal name of a token of the remark fields. */
  function Internal(token: string): (name: Option<string>)
    ensures name.Some? ==> BraceFree(token) && BraceFree(name.value) && name.value != ""
  {
    match token
    case "DATA_USAGE" => Some("TRAFFIC_USED")
    case "DATA_LEFT" => Some("TRAFFIC_LEFT")
    case "DATA_LIMIT" => Some("TRAFFIC_TOTAL")
    case _ => if SameName(token) then Some(token) else None
  }

  /** Tokens that go by the same name inside. */
  predicate SameName(token: string)
    ensures SameName(token) ==> BraceFree(token) && token != ""
  {
    token in ["EMAIL", "DAYS_LEFT", "EXPIRE_DATE", "JALALI_EXPIRE_DATE", "TIME_LEFT", "STATUS_EMOJI", "USAGE_PERCENTAGE",
              "PROTOCOL", "TRANSPORT"]
  }

  /** The token of `{token}` at the front of `s`, if it is one to translate. */
  function TokenAtFront(s: string): (token: Option<string>)
    ensures token.Some? ==>
              var n := |token.value|;
              n + 2 <= |s| && s[0] == '{' && s[1..n + 1] == token.value && s[n + 1] == '}' && Internal(token.value).Some?
  {
    if s == "" || s[0] != '{' then None
    else
      var j := IndexOf(s[1..], '}');
      if j < |s| - 1 && Internal(s[1..][..j]).Some? then Some(s[1..][..j]) else None
  }

  /** The translation of `s`; `open` says that the character before it is `{`. */
  function Translated(open: bool, s: string): string
    decreases |s|
  {
    if s == "" then ""
    else if !open && TokenAtFront(s).Some? then
      var token := TokenAtFront(s).value;
      "{{" + Internal(token).value + "}}" + Translated(false, s[|token| + 2..])
    else [s[0]] + Translated(s[0] == '{', s[1..])
  }

  lemma {:induction false} TextIsCopied(text: string, open: bool, rest: string)
    requires text != "" && '{' !in text
    ensures Translated(open, text + rest) == text + Translated(false, rest)
  {
    assert text[0] in text;
    assert (text + rest)[1..] == text[1..] + rest;
    if |text| > 1 {
      TextIsCopied(text[1..], false, rest);
      assert [text[0]] + (text[1..] + Translated(false, rest)) == text + Translated(false, rest);
    } else {
      assert text[1..] + rest == rest;
      assert text == [text[0]];
    }
  }

  /** The text before the first `}`, or all of it. */
  function UpToClose(s: string): string { s[..IndexOf(s, '}')] }

  /** Up to the first `}`, `t` is `s` or holds a brace more. */
  predicate CloseKept(s: string, t: string) {
    ('}' in s <==> '}' in t) && (UpToClose(t) == UpToClose(s) || '{' in UpToClose(t))
  }

  lemma CloseKeptCons(c: char, s: string, t: string)
    requires CloseKept(s, t)
    ensures CloseKept([c] + s, [c] + t)
  {
    assert ([c] + s)[1..] == s && ([c] + t)[1..] == t;
    if c != '}' {
      assert UpToClose([c] + s) == [c] + UpToClose(s);
      assert UpToClose([c] + t) == [c] + UpToClose(t);
    } else {
      assert UpToClose([c] + s) == UpToClose([c] + t);
      assert ([c] + s)[0] == '}' && ([c] + t)[0] == '}';
    }
  }

  lemma CloseKeptByPlaceholder(s: string, name: string, rest: string)
    requires '}' in s && '}' !in name
    ensures CloseKept(s, "{{" + name + "}}" + rest)
  {
    var shown := "{{" + name;
    var t := "{{" + name + "}}" + rest;
    assert t == shown + ['}'] + (['}'] + rest);
    IndexOfPrefix(shown, '}', ['}'] + rest);
    assert UpToClose(t) == shown && shown[0] == '{';
    assert t[|shown|] == '}';
  }

  /** Translation changes the text before the first `}` only by putting braces into it. */
  lemma {:induction false} FirstCloseStays(open: bool, s: string)
    ensures CloseKept(s, Translated(open, s))
    decreases |s|
  {
    hide TokenAtFront, Internal, CloseKept;
    if s == "" {
      assert CloseKept("", "") by {
        SameClose("");
      }
    } else if !open && TokenAtFront(s).Some? {
      var token := TokenAtFront(s).value;
      assert s[|token| + 1] == '}';
      CloseKeptByPlaceholder(s, Internal(token).value, Translated(false, s[|token| + 2..]));
    } else {
      FirstCloseStays(s[0] == '{', s[1..]);
      CloseKeptCons(s[0], s[1..], Translated(s[0] == '{', s[1..]));
      assert s == [s[0]] + s[1..];
    }
  }

  lemma SameClose(s: string)
    ensures CloseKept(s, s)
  {
  }

  /** What is left alone once is left alone again. */
  lemma CopiedStaysCopied(s: string)
    requires s != "" && s[0] == '{' && TokenAtFront(s).None?
    ensures TokenAtFront(['{'] + Translated(true, s[1..])).None?
  {
    FirstCloseStays(true, s[1..]);
    var t := Translated(true, s[1..]);
    assert (['{'] + t)[1..] == t;
  }

  /** A placeholder that was put in is left alone. */
  lemma DoubledBraceIsNoToken(name: string, rest: string)
    requires '}' !in name
    ensures TokenAtFront("{{" + name + "}}" + rest).None?
  {
    hide IndexOf;
    var s := "{{" + name + "}}" + rest;
    var inner := ['{'] + name;
    assert s[1..] == inner + ['}'] + (['}'] + rest);
    IndexOfPrefix(inner, '}', ['}'] + rest);
    assert s[1..][..|inner|] == inner && inner[0] == '{';
  }

  lemma PlaceholderIsCopied(name: string, rest: string)
    requires name != "" && '{' !in name && '}' !in name
    ensures Translated(false, "{{" + name + "}}" + rest) == "{{" + name + "}}" + Translated(false, rest)
  {
    var s := "{{" + name + "}}" + rest;
    DoubledBraceIsNoToken(name, rest);
    hide TokenAtFront;
    assert s[1..][1..] == (name + "}}") + rest;
    assert Translated(false, s) == ['{'] + (['{'] + Translated(true, s[1..][1..]));
    hide Translated;
    TextIsCopied(name + "}}", true, rest);
  }

  /** Translating twice is translating once. */
  lemma {:induction false} TranslationIsIdempotent(open: bool, s: string)
    ensures Translated(open, Translated(open, s)) == Translated(open, s)
    decreases |s|
  {
    hide TokenAtFront, Internal;
    if s == "" {
    } else if !open && TokenAtFront(s).Some? {
      var token := TokenAtFront(s).value;
      TranslationIsIdempotent(false, s[|token| + 2..]);
      PlaceholderIsCopied(Internal(token).value, Translated(false, s[|token| + 2..]));
    } else {
      TranslationIsIdempotent(s[0] == '{', s[1..]);
      var t := Translated(s[0] == '{', s[1..]);
      assert ([s[0]] + t)[1..] == t;
      if s[0] == '{' && !open {
        CopiedStaysCopied(s);
      } else if s[0] != '{' {
        NoToken([s[0]] + t);
      }
    }
  }

  lemma NoToken(s: string)
    ensures s != "" && s[0] != '{' ==> TokenAtFront(s).None?
  {
  }

  // ---------------------------------------------------------------- which tokens are translated

  /** The tokens of the remark fields and their names inside. */
  const UI_TOKENS: seq<(string, string)> := [
    ("EMAIL", "EMAIL"), ("DATA_USAGE", "TRAFFIC_USED"), ("DATA_LEFT", "TRAFFIC_LEFT"), ("DATA_LIMIT", "TRAFFIC_TOTAL"),
    ("DAYS_LEFT", "DAYS_LEFT"), ("EXPIRE_DATE", "EXPIRE_DATE"), ("JALALI_EXPIRE_DATE", "JALALI_EXPIRE_DATE"),
    ("TIME_LEFT", "TIME_LEFT"), ("STATUS_EMOJI", "STATUS_EMOJI"), ("USAGE_PERCENTAGE", "USAGE_PERCENTAGE"),
    ("PROTOCOL", "PROTOCOL"), ("TRANSPORT", "TRANSPORT")]

  lemma InternalExactly(token: string, name: string)
    ensures Internal(token) == Some(name) <==> (token, name) in UI_TOKENS
  {
    var t := UI_TOKENS;
    if token == "DATA_USAGE" {
      assert t[1] == (token, "TRAFFIC_USED");
    } else if token == "DATA_LEFT" {
      assert t[2] == (token, "TRAFFIC_LEFT");
    } else if token == "DATA_LIMIT" {
      assert t[3] == (token, "TRAFFIC_TOTAL");
    }
  }

  /** `{TOKEN}` is replaced by the doubled braces of its name if it is one of them, and stays as it is otherwise. */
  lemma TokenTranslatedExactly(token: string, rest: string)
    requires token != "" && BraceFree(token)
    ensures forall name :: (token, name) in UI_TOKENS ==>
              Translated(false, "{" + token + "}" + rest) == "{{" + name + "}}" + Translated(false, rest)
    ensures (forall name :: (token, name) !in UI_TOKENS) ==>
              Translated(false, "{" + token + "}" + rest) == "{" + token + "}" + Translated(false, rest)
  {
    hide Internal, IndexOf;
    var s := "{" + token + "}" + rest;
    assert s[1..] == token + ['}'] + rest;
    IndexOfPrefix(token, '}', rest);
    assert s[1..][..|token|] == token && s[|token| + 2..] == rest;
    forall name ensures Internal(token) == Some(name) <==> (token, name) in UI_TOKENS {
      InternalExactly(token, name);
    }
    if Internal(token).None? {
      assert TokenAtFront(s).None?;
      assert s[1..] == (token + "}") + rest;
      TextIsCopied(token + "}", true, rest);
    }
  }

  /** Of the names tokens have inside, all but the address, the protocol and the transport are usage information. */
  lemma NamesOfUsage(token: string, name: string)
    requires (token, name) in UI_TOKENS
    ensures name in USAGE_TOKENS <==> name !in ["EMAIL", "PROTOCOL", "TRANSPORT"]
  {
  }

  /** The other usage tokens are not offered in the remark fields: counts of bytes, both directions, the raw date and status. */
  lemma OtherUsage(name: string)
    requires forall token :: (token, name) !in UI_TOKENS
    ensures name in USAGE_TOKENS <==>
              || name == "TRAFFIC_USED" + "_BYTES" || name == "TRAFFIC_LEFT" + "_BYTES" || name == "TRAFFIC_TOTAL" + "_BYTES"
              || name == "UP" || name == "DOWN" || name == "EXPIRE_UNIX" || name == "STATUS"
  {
    var t, u := USAGE_TOKENS, UI_TOKENS;
    assert u[1].1 == t[0] && u[2].1 == t[1] && u[3].1 == t[2] && u[4].1 == t[8] && u[5].1 == t[9];
    assert u[6].1 == t[15] && u[7].1 == t[14] && u[8].1 == t[12] && u[9].1 == t[13];
    assert t[3] == "TRAFFIC_USED" + "_BYTES" && t[4] == "TRAFFIC_LEFT" + "_BYTES" && t[5] == "TRAFFIC_TOTAL" + "_BYTES";
    forall k | 0 <= k < |u| ensures u[k].1 != name {
      assert (u[k].0, u[k].1) == u[k] && u[k] in UI_TOKENS;
    }
    hide UI_TOKENS;
  }

  // ---------------------------------------------------------------- fixed points

  /** Nothing in `s` is translated. */
  predicate Settled(open: bool, s: string)
    decreases |s|
  {
    s == "" || ((open || TokenAtFront(s).None?) && Settled(s[0] == '{', s[1..]))
  }

  lemma {:induction false} SettledIffFixed(open: bool, s: string)
    ensures Settled(open, s) <==> Translated(open, s) == s
    decreases |s|
  {
    hide TokenAtFront, Internal;
    if s != "" {
      if !open && TokenAtFront(s).Some? {
        var token := TokenAtFront(s).value;
        var t := Translated(open, s);
        assert t[1] == '{';
        if t == s {
          assert s[1..|token| + 1][..|token|] == token;
          TokenStart(s);
        }
      } else {
        SettledIffFixed(s[0] == '{', s[1..]);
        var t := Translated(s[0] == '{', s[1..]);
        assert ([s[0]] + t)[1..] == t && s == [s[0]] + s[1..];
      }
    }
  }

  /** No token to translate starts with a brace. */
  lemma TokenStart(s: string)
    requires TokenAtFront(s).Some?
    ensures s[1] != '{'
  {
    var token := TokenAtFront(s).value;
    if token == "" {
      assert s[1] == '}';
    } else {
      assert s[1] == token[0];
      assert token[0] in token;
    }
  }

  lemma TokenInPrefix(s: string, n: nat)
    requires n <= |s| && TokenAtFront(s[..n]).Some?
    ensures TokenAtFront(s).Some?
  {
    var p := s[..n];
    var token := TokenAtFront(p).value;
    assert p[1..|token| + 1] == s[1..|token| + 1];
    assert '}' !in token by {
      assert token == p[1..][..IndexOf(p[1..], '}')];
    }
    var rest := s[|token| + 2..];
    assert s[1..] == token + ['}'] + rest;
    IndexOfPrefix(token, '}', rest);
    assert s[1..][..|token|] == token;
  }

  lemma {:induction false} PrefixSettled(open: bool, s: string, n: nat)
    requires n <= |s| && Settled(open, s)
    ensures Settled(open, s[..n])
    decreases |s|
  {
    if n > 0 {
      PrefixSettled(s[0] == '{', s[1..], n - 1);
      assert s[..n][1..] == s[1..][..n - 1];
      if TokenAtFront(s[..n]).Some? {
        TokenInPrefix(s, n);
      }
    }
  }

  // ---------------------------------------------------------------- the name part

  predicate OccursAt(s: string, text: string, i: nat) { i + |text| <= |s| && s[i..i + |text|] == text }

  function Placeholder(token: string): string { "{{" + token + "}}" }

  predicate UsageAmong(s: string, i: nat, n: nat)
    requires n <= |USAGE_TOKENS|
  {
    exists k :: 0 <= k < n && OccursAt(s, Placeholder(USAGE_TOKENS[k]), i)
  }

  predicate UsageAt(s: string, i: nat) { UsageAmong(s, i, |USAGE_TOKENS|) }

  /** No placeholder of a usage token anywhere. */
  predicate UsageFree(s: string) { forall i :: 0 <= i < |s| ==> !UsageAt(s, i) }

  /** Characters at which trimming stops. */
  predicate Kept(letterOrDigit: char -> bool, c: char) { c == '}' || letterOrDigit(c) }

  /** `name` is what is left of `s` once its usage part, and the decoration before it, is cut off. */
  ghost predicate IsNamePart(letterOrDigit: char -> bool, s: string, name: string) {
    if UsageFree(s) then name == s
    else
      exists cut: nat :: |name| <= cut < |s| && UsageAt(s, cut) && (forall i: nat :: i < cut ==> !UsageAt(s, i))
        && name == s[..|name|]
        && (name != "" ==> Kept(letterOrDigit, name[|name| - 1]))
        && forall i :: |name| <= i < cut ==> !Kept(letterOrDigit, s[i])
  }

  lemma PrefixHasNoMore(s: string, n: nat, i: nat)
    requires n <= |s| && UsageAt(s[..n], i)
    ensures UsageAt(s, i) && i < n
  {
    var k :| 0 <= k < |USAGE_TOKENS| && OccursAt(s[..n], Placeholder(USAGE_TOKENS[k]), i);
    var text := Placeholder(USAGE_TOKENS[k]);
    assert s[..n][i..i + |text|] == s[i..i + |text|];
  }

  lemma NamePartIsFree(letterOrDigit: char -> bool, s: string, name: string)
    requires IsNamePart(letterOrDigit, s, name)
    ensures UsageFree(name) && |name| <= |s| && name == s[..|name|]
  {
    hide UsageAt;
    assert s == s[..|s|];
    forall i | 0 <= i < |name| ensures !UsageAt(name, i) {
      if UsageAt(name, i) {
        PrefixHasNoMore(s, |name|, i);
      }
    }
  }

  /**
  The name part is a prefix free of every usage placeholder, it is all there is when the template
  has none, and translating it once more does not change it.
  */
  lemma NamePartIsSettled(letterOrDigit: char -> bool, template: string, name: string)
    requires IsNamePart(letterOrDigit, Translated(false, template), name)
    ensures UsageFree(name) && name <= Translated(false, template)
    ensures Translated(false, name) == name
  {
    hide UsageFree, IsNamePart, Settled, Translated;
    var s := Translated(false, template);
    NamePartIsFree(letterOrDigit, s, name);
    TranslationIsIdempotent(false, template);
    SettledIffFixed(false, s);
    PrefixSettled(false, s, |name|);
    SettledIffFixed(false, name);
  }

  /**
  What is cut off is the first usage placeholder with all after it, and the decoration in front of it:
  characters that are no letter, no digit and do not close a placeholder.
  */
  lemma DecorationIsCut(letterOrDigit: char -> bool, head: string, decoration: string, tail: string, name: string)
    requires head != "" ==> head[|head| - 1] == '}' || letterOrDigit(head[|head| - 1])
    requires forall c :: c in decoration ==> c != '}' && !letterOrDigit(c)
    requires UsageAt(head + decoration + tail, |head + decoration|)
    requires forall i: nat :: i < |head + decoration| ==> !UsageAt(head + decoration + tail, i)
    requires IsNamePart(letterOrDigit, head + decoration + tail, name)
    ensures name == head
  {
    var s, n := head + decoration + tail, |head + decoration|;
    hide UsageAt;
    UsageInside(s, n);
    var cut: nat :| |name| <= cut < |s| && UsageAt(s, cut) && (forall i: nat :: i < cut ==> !UsageAt(s, i))
                    && name == s[..|name|] && (name != "" ==> Kept(letterOrDigit, name[|name| - 1]))
                    && forall i :: |name| <= i < cut ==> !Kept(letterOrDigit, s[i]);
    assert cut == n;
    assert forall i :: 0 <= i < |head| ==> s[i] == head[i];
    assert forall i :: |head| <= i < n ==> s[i] == decoration[i - |head|] && s[i] in decoration;
    assert |name| == |head|;
    assert s[..|head|] == head;
  }

  lemma UsageInside(s: string, i: nat)
    requires UsageAt(s, i)
    ensures i < |s| && !UsageFree(s)
  {
    var k :| 0 <= k < |USAGE_TOKENS| && OccursAt(s, Placeholder(USAGE_TOKENS[k]), i);
    assert |Placeholder(USAGE_TOKENS[k])| > 0;
  }

  // ---------------------------------------------------------------- the code

  /** `translateUISingleBrackets`. */
  method TranslateUISingleBrackets(template: string) returns (result: string)
    ensures result == Translated(false, template)
  {
    hide Translated, TokenAtFront, Internal;
    result := "";
    var i := 0;
    while i < |template|
      invariant 0 <= i <= |template|
      invariant result + Translated(i > 0 && template[i - 1] == '{', template[i..]) == Translated(false, template)
      decreases |template| - i
    {
      ghost var before := result;
      ghost var open := i > 0 && template[i - 1] == '{';
      TranslationStep(open, template[i..]);
      if template[i] == '{' && (i == 0 || template[i - 1] != '{') {
        var j := FindClose(template, i + 1);
        TokenFound(template, i, j);
        if j < |template| && Internal(template[i + 1..j]).Some? {
          var token := template[i + 1..j];
          result := result + "{{";
          result := result + Internal(token).value;
          result := result + "}}";
          assert template[i..][|token| + 2..] == template[j + 1..];
          Regroup(before, "{{", Internal(token).value, "}}", Translated(false, template[j + 1..]));
          i := j + 1;
          continue;
        }
      } else {
        NoToken(template[i..]);
      }
      result := result + [template[i]];
      assert template[i..][1..] == template[i + 1..];
      Regroup(before, [template[i]], "", "", Translated(template[i] == '{', template[i + 1..]));
      i := i + 1;
    }
    assert template[i..] == "";
    EmptyTranslation(i > 0 && template[i - 1] == '{');
  }

  lemma Regroup(a: string, b: string, c: string, d: string, e: string)
    ensures a + (b + c + d + e) == a + b + c + d + e
    ensures c == "" && d == "" ==> a + (b + e) == a + b + e
  {
  }

  method FindClose(template: string, i: nat) returns (j: nat)
    requires i <= |template|
    ensures i <= j <= |template| && '}' !in template[i..j] && (j < |template| ==> template[j] == '}')
  {
    j := i;
    while j < |template| && template[j] != '}'
      invariant i <= j <= |template| && '}' !in template[i..j]
    {
      assert template[i..j + 1] == template[i..j] + [template[j]];
      j := j + 1;
    }
  }

  lemma EmptyTranslation(open: bool)
    ensures Translated(open, "") == ""
  {
  }

  lemma TranslationStep(open: bool, s: string)
    requires s != ""
    ensures !open && TokenAtFront(s).Some? ==>
              var token := TokenAtFront(s).value;
              Translated(open, s) == "{{" + Internal(token).value + "}}" + Translated(false, s[|token| + 2..])
    ensures open || TokenAtFront(s).None? ==> Translated(open, s) == [s[0]] + Translated(s[0] == '{', s[1..])
  {
  }

  lemma TokenFound(template: string, i: nat, j: nat)
    requires i < j <= |template| && template[i] == '{' && '}' !in template[i + 1..j]
    requires j < |template| ==> template[j] == '}'
    ensures TokenAtFront(template[i..]) ==
            if j < |template| && Internal(template[i + 1..j]).Some? then Some(template[i + 1..j]) else None
  {
    var s := template[i..];
    var token := template[i + 1..j];
    if j < |template| {
      assert s[1..] == token + ['}'] + template[j + 1..];
      IndexOfPrefix(token, '}', template[j + 1..]);
      assert s[1..][..|token|] == token;
    } else {
      assert s[1..] == token;
      assert IndexOf(token, '}') == |token|;
    }
  }

  /** `strings.Index`. */
  method Index(s: string, text: string) returns (i: int)
    requires text != ""
    ensures -1 <= i < |s| && (i >= 0 ==> OccursAt(s, text, i))
    ensures forall j :: 0 <= j < (if i < 0 then |s| else i) ==> !OccursAt(s, text, j)
  {
    i := 0;
    while i < |s|
      invariant 0 <= i <= |s|
      invariant forall j :: 0 <= j < i ==> !OccursAt(s, text, j)
    {
      if OccursAt(s, text, i) {
        return;
      }
      i := i + 1;
    }
    i := -1;
  }

  /** The first loop of `nameOnlyTemplate`: where the usage part starts, or -1. */
  method UsageStart(template: string) returns (idx: int)
    ensures -1 <= idx < |template| && (idx >= 0 ==> UsageAt(template, idx))
    ensures forall j :: 0 <= j < (if idx < 0 then |template| else idx) ==> !UsageAt(template, j)
  {
    hide UsageAmong, OccursAt, Placeholder;
    idx := -1;
    forall j: nat ensures !UsageAmong(template, j, 0) {
      AmongNone(template, j);
    }
    for k := 0 to |USAGE_TOKENS|
      invariant -1 <= idx < |template|
      invariant idx >= 0 ==> UsageAmong(template, idx, k)
      invariant forall j :: 0 <= j < (if idx < 0 then |template| else idx) ==> !UsageAmong(template, j, k)
    {
      PlaceholderIsText(USAGE_TOKENS[k]);
      var i := Index(template, Placeholder(USAGE_TOKENS[k]));
      if i >= 0 && (idx < 0 || i < idx) {
        idx := i;
      }
      if idx >= 0 {
        AmongMore(template, idx, k);
      }
      var next := k + 1;
      forall j | 0 <= j < (if idx < 0 then |template| else idx) ensures !UsageAmong(template, j, next) {
        AmongMore(template, j, k);
      }
    }
  }

  lemma PlaceholderIsText(token: string)
    ensures Placeholder(token) != ""
  {
  }

  lemma AmongNone(s: string, j: nat)
    ensures !UsageAmong(s, j, 0)
  {
  }

  /** `nameOnlyTemplate`. */
  method NameOnlyTemplate(letterOrDigit: char -> bool, template: string) returns (name: string)
    ensures IsNamePart(letterOrDigit, template, name)
  {
    hide UsageAt;
    var idx := UsageStart(template);
    if idx < 0 {
      return template;
    }
    var n := idx;
    while n > 0 && !Kept(letterOrDigit, template[n - 1])
      invariant 0 <= n <= idx
      invariant forall i :: n <= i < idx ==> !Kept(letterOrDigit, template[i])
    {
      n := n - 1;
    }
    name := template[..n];
    assert !UsageFree(template);
  }

  lemma AmongMore(s: string, j: nat, k: nat)
    requires k < |USAGE_TOKENS|
    ensures UsageAmong(s, j, k + 1) <==> UsageAmong(s, j, k) || OccursAt(s, Placeholder(USAGE_TOKENS[k]), j)
  {
    if UsageAmong(s, j, k) {
      var m :| 0 <= m < k && OccursAt(s, Placeholder(USAGE_TOKENS[m]), j);
    }
  }

  /** The state `effectiveTemplate` keeps per request. */
  class Links {
    const remarkTemplate: string
    const letterOrDigit: char -> bool
    var usageShown: set<string>
    ghost var emails: seq<string>

    ghost predicate Valid()
      reads this
    {
      forall email :: email in usageShown <==> email in emails
    }

    constructor (remarkTemplate: string, letterOrDigit: char -> bool)
      ensures Valid() && emails == [] && this.remarkTemplate == remarkTemplate
    {
      this.remarkTemplate, this.letterOrDigit := remarkTemplate, letterOrDigit;
      usageShown, emails := {}, [];
    }

    /**
    `effectiveTemplate`: a client's first link shows the usage part, every later one only the name;
    the translation `expandRemarkVars` starts with changes neither.
    */
    method EffectiveTemplate(email: string) returns (template: string)
      requires Valid()
      modifies this
      ensures Valid() && emails == old(emails) + [email]
      ensures email !in old(emails) ==> template == Translated(false, remarkTemplate)
      ensures email in old(emails) ==>
                UsageFree(template) && IsNamePart(letterOrDigit, Translated(false, remarkTemplate), template)
      ensures Translated(false, template) == template
    {
      hide IsNamePart, Translated, UsageFree;
      var translated := TranslateUISingleBrackets(remarkTemplate);
      TranslationIsIdempotent(false, remarkTemplate);
      if email in usageShown {
        template := NameOnlyTemplate(letterOrDigit, translated);
        NamePartIsSettled(letterOrDigit, remarkTemplate, template);
      } else {
        usageShown := usageShown + {email};
        template := translated;
      }
      emails := emails + [email];
    }
  }
}
