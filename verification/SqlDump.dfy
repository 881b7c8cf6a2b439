/**
The table data of a SQL text dump (internal/database/dump_sqlite.go:142-212) and a reader of it:
literals as in section 5.3 of ISO/IEC 9075:1992, blobs as SQLite writes them. Strings are byte strings.
*/
module SqlDump {
  import opened Text
  import Percent

  /** A scanned column value; `Other` is any further type with the text `%v` prints for it. */
  datatype Value = Null | Int(n: int) | Bool(b: bool) | Txt(text: string) | Blob(bytes: string) | Other(shown: string)

  // ---------------------------------------------------------------- UTF-8

  predicate In(c: char, lo: int, hi: int) { lo <= c as int <= hi }

  /** Length of the UTF-8 encoding at the front of `s`, 0 if there is none (section 3 of RFC 3629). */
  function RuneLength(s: string): (n: nat)
    ensures n <= |s|
  {
    if s == "" then 0
    else if In(s[0], 0, 0x7F) then 1
    else if |s| >= 2 && In(s[0], 0xC2, 0xDF) && In(s[1], 0x80, 0xBF) then 2
    else if |s| >= 3 && In(s[0], 0xE0, 0xEF) && In(s[1], 0x80, 0xBF) && In(s[2], 0x80, 0xBF)
      && (s[0] as int == 0xE0 ==> In(s[1], 0xA0, 0xBF)) && (s[0] as int == 0xED ==> In(s[1], 0x80, 0x9F)) then 3
    else if |s| >= 4 && In(s[0], 0xF0, 0xF4) && In(s[1], 0x80, 0xBF) && In(s[2], 0x80, 0xBF) && In(s[3], 0x80, 0xBF)
      && (s[0] as int == 0xF0 ==> In(s[1], 0x90, 0xBF)) && (s[0] as int == 0xF4 ==> In(s[1], 0x80, 0x8F)) then 4
    else 0
  }

  /** `utf8.Valid`. */
  predicate ValidUtf8(s: string) {
    s == "" || (RuneLength(s) > 0 && ValidUtf8(s[RuneLength(s)..]))
  }

  /** The code points a text may hold: all but the surrogates. */
  predicate IsScalar(c: nat) { c < 0xD800 || 0xE000 <= c < 0x110000 }

  predicate AllScalars(cs: seq<nat>) { forall i :: 0 <= i < |cs| ==> IsScalar(cs[i]) }

  function Encoded(cs: seq<nat>): string
    requires AllScalars(cs)
  {
    if cs == [] then "" else Utf8(cs[0]) + Encoded(cs[1..])
  }

  /** Digits to the base 64. */
  lemma Digits64(n: nat)
    ensures n / 4096 == n / 64 / 64 && n / 262144 == n / 4096 / 64
    ensures n == 64 * (n / 64) + n % 64 == 4096 * (n / 4096) + 64 * (n / 64 % 64) + n % 64
  {
  }

  lemma FromDigits64(q: nat, d: nat)
    requires d < 64
    ensures (64 * q + d) / 64 == q && (64 * q + d) % 64 == d
  {
  }

  lemma LeadBytes(c: nat)
    requires IsScalar(c)
    ensures 0x800 <= c < 0x10000 ==> (c / 4096 == 0 ==> c / 64 % 64 >= 0x20) && (c / 4096 == 13 ==> c / 64 % 64 < 0x20)
    ensures c >= 0x10000 ==> (c / 262144 == 0 ==> c / 4096 % 64 >= 0x10) && (c / 262144 == 4 ==> c / 4096 % 64 < 0x10) && c / 262144 <= 4
  {
    Digits64(c);
    assert c / 262144 == 4 ==> c / 4096 == 256 + c / 4096 % 64;
  }

  lemma ScalarIsRune(c: nat, rest: string)
    requires IsScalar(c)
    ensures RuneLength(Utf8(c) + rest) == |Utf8(c)| > 0 && (Utf8(c) + rest)[|Utf8(c)|..] == rest
  {
    LeadBytes(c);
    var u := Utf8(c);
    assert forall i :: 0 <= i < |u| ==> (u + rest)[i] == u[i];
  }

  lemma RuneIsScalar(s: string) returns (c: nat)
    requires RuneLength(s) > 0
    ensures IsScalar(c) && s == Utf8(c) + s[RuneLength(s)..]
  {
    var n := RuneLength(s);
    if n == 1 {
      c := s[0] as int;
    } else if n == 2 {
      c := 64 * (s[0] as int - 0xC0) + (s[1] as int - 0x80);
      FromDigits64(s[0] as int - 0xC0, s[1] as int - 0x80);
    } else if n == 3 {
      c := RuneOfThree(s);
    } else {
      c := RuneOfFour(s);
    }
    assert s == s[..n] + s[n..];
  }

  lemma RuneOfThree(s: string) returns (c: nat)
    requires RuneLength(s) == 3
    ensures IsScalar(c) && s[..3] == Utf8(c)
  {
    var (a, b, d) := (s[0] as int - 0xE0, s[1] as int - 0x80, s[2] as int - 0x80);
    c := 64 * (64 * a + b) + d;
    FromDigits64(a, b);
    FromDigits64(64 * a + b, d);
    Digits64(c);
  }

  lemma RuneOfFour(s: string) returns (c: nat)
    requires RuneLength(s) == 4
    ensures IsScalar(c) && s[..4] == Utf8(c)
  {
    var (a, b, d, e) := (s[0] as int - 0xF0, s[1] as int - 0x80, s[2] as int - 0x80, s[3] as int - 0x80);
    c := 64 * (64 * (64 * a + b) + d) + e;
    FromDigits64(a, b);
    FromDigits64(64 * a + b, d);
    FromDigits64(64 * (64 * a + b) + d, e);
    Digits64(c);
  }

  /** Bytes are the encodings of code points, one after the other, exactly if they are valid. */
  lemma {:induction false} ValidExactly(s: string)
    ensures ValidUtf8(s) <==> exists cs :: AllScalars(cs) && Encoded(cs) == s
  {
    if ValidUtf8(s) {
      var cs := Decoded(s);
    }
    forall cs | AllScalars(cs) && Encoded(cs) == s ensures ValidUtf8(s) {
      EncodedIsValid(cs);
    }
  }

  lemma {:induction false} EncodedIsValid(cs: seq<nat>)
    requires AllScalars(cs)
    ensures ValidUtf8(Encoded(cs))
  {
    if cs != [] {
      EncodedIsValid(cs[1..]);
      ScalarIsRune(cs[0], Encoded(cs[1..]));
    }
  }

  lemma {:induction false} Decoded(s: string) returns (cs: seq<nat>)
    requires ValidUtf8(s)
    ensures AllScalars(cs) && Encoded(cs) == s
  {
    hide RuneLength, Utf8, IsScalar;
    if s == "" {
      cs := [];
    } else {
      var c := RuneIsScalar(s);
      var more := Decoded(s[RuneLength(s)..]);
      cs := [c] + more;
      assert cs[1..] == more;
    }
  }

  // ---------------------------------------------------------------- the printer

  function Doubled(s: string): string {
    if s == "" then "" else (if s[0] == '\'' then "''" else [s[0]]) + Doubled(s[1..])
  }

  /** `quoteSQLiteText`. */
  function Quoted(s: string): string { "'" + Doubled(s) + "'" }

  function Hex(bytes: string): string
    requires Percent.ByteText(bytes)
  {
    if bytes == "" then ""
    else
      var n := |bytes| - 1;
      Hex(bytes[..n]) + HexByte(bytes[n])
  }

  function HexByte(c: char): (s: string)
    requires c as int < 256
    ensures |s| == 2
  {
    [LowerHex(c as int / 16), LowerHex(c as int % 16)]
  }

  predicate Storable(v: Value) { v.Blob? ==> Percent.ByteText(v.bytes) }

  function Literal(v: Value): string
    requires Storable(v)
  {
    match v
    case Null => "NULL"
    case Int(n) => Itoa(n)
    case Bool(b) => if b then "1" else "0"
    case Txt(text) => Quoted(text)
    case Blob(bytes) => if ValidUtf8(bytes) then Quoted(bytes) else "X'" + Hex(bytes) + "'"
    case Other(shown) => Quoted(shown)
  }

  predicate StorableRow(row: seq<Value>) { forall v :: v in row ==> Storable(v) }

  function Literals(row: seq<Value>): string
    requires StorableRow(row)
  {
    if row == [] then ""
    else Literals(row[..|row| - 1]) + (if |row| > 1 then "," else "") + Literal(row[|row| - 1])
  }

  function Insert(table: string, row: seq<Value>): string
    requires StorableRow(row)
  {
    "INSERT INTO \"" + table + "\" VALUES(" + Literals(row) + ");\n"
  }

  function Inserts(table: string, rows: seq<seq<Value>>): string
    requires forall row :: row in rows ==> StorableRow(row)
  {
    if rows == [] then "" else Inserts(table, rows[..|rows| - 1]) + Insert(table, rows[|rows| - 1])
  }

  /** `sqliteLiteral`. */
  method SqliteLiteral(v: Value) returns (s: string)
    requires Storable(v)
    ensures s == Literal(v)
  {
    match v {
      case Null => s := "NULL";
      case Int(n) => s := Itoa(n);
      case Bool(b) => s := if b then "1" else "0";
      case Txt(text) => s := Quoted(text);
      case Other(shown) => s := Quoted(shown);
      case Blob(bytes) =>
        if ValidUtf8(bytes) {
          return Quoted(bytes);
        }
        s := "X'";
        for i := 0 to |bytes|
          invariant s == "X'" + Hex(bytes[..i])
        {
          assert bytes[..i + 1][..i] == bytes[..i];
          s := s + [LowerHex(bytes[i] as int / 16), LowerHex(bytes[i] as int % 16)];
        }
        assert bytes[..|bytes|] == bytes;
        s := s + "'";
    }
  }

  /** The inner loop of `dumpTableData`. */
  method DumpRow(row: seq<Value>, b: string) returns (out: string)
    requires StorableRow(row)
    ensures out == b + Literals(row)
  {
    hide Literal, Storable;
    out := b;
    for k := 0 to |row|
      invariant StorableRow(row[..k]) && out == b + Literals(row[..k])
    {
      if k > 0 {
        out := out + ",";
      }
      assert row[k] in row;
      var literal := SqliteLiteral(row[k]);
      out := out + literal;
      assert row[..k + 1] == row[..k] + [row[k]] && row[..k + 1][..k] == row[..k];
    }
    assert row[..|row|] == row;
  }

  /** `dumpTableData`: one statement per row, appended to `b`. */
  method DumpTableData(table: string, rows: seq<seq<Value>>, b: string) returns (out: string)
    requires forall row :: row in rows ==> StorableRow(row)
    ensures out == b + Inserts(table, rows)
  {
    hide StorableRow, Literals;
    out := b;
    var prefix := "INSERT INTO \"" + table + "\" VALUES(";
    for i := 0 to |rows|
      invariant (forall row :: row in rows[..i] ==> StorableRow(row)) && out == b + Inserts(table, rows[..i])
    {
      assert rows[i] in rows;
      out := out + prefix;
      out := DumpRow(rows[i], out);
      out := out + ");\n";
      assert rows[..i + 1] == rows[..i] + [rows[i]] && rows[..i + 1][..i] == rows[..i];
      Regroup(b + Inserts(table, rows[..i]), prefix, Literals(rows[i]), ");\n");
    }
    assert rows[..|rows|] == rows;
  }

  lemma Regroup(a: string, b: string, c: string, d: string)
    ensures a + b + c + d == a + (b + c + d)
  {
  }

  // ---------------------------------------------------------------- the reader

  type Read<T> = Option<(T, string)>

  /** The rest of a quoted text, after the opening quote. */
  function ReadQuoted(s: string): (r: Read<string>)
    ensures r.Some? ==> |r.value.1| < |s|
  {
    if s == "" then None
    else if s[0] == '\'' then
      if |s| > 1 && s[1] == '\'' then
        match ReadQuoted(s[2..])
        case None => None
        case Some(r) => Some(("'" + r.0, r.1))
      else Some(("", s[1..]))
    else
      match ReadQuoted(s[1..])
      case None => None
      case Some(r) => Some(([s[0]] + r.0, r.1))
  }

  /** The rest of a blob, after `X'`. */
  function ReadHex(s: string): (r: Read<string>)
    ensures r.Some? ==> |r.value.1| < |s|
  {
    if s == "" then None
    else if s[0] == '\'' then Some(("", s[1..]))
    else if |s| >= 2 && HexValue(s[0]) >= 0 && HexValue(s[1]) >= 0 then
      match ReadHex(s[2..])
      case None => None
      case Some(r) => Some(([(16 * HexValue(s[0]) + HexValue(s[1])) as char] + r.0, r.1))
    else None
  }

  function ReadInt(s: string): (r: Read<int>)
    ensures r.Some? ==> |r.value.1| < |s|
  {
    if s == "" || s[0] != '-' then ReadDigits(s)
    else
      match ReadDigits(s[1..])
      case None => None
      case Some(r) => Some((-r.0, r.1))
  }

  function ReadDigits(s: string): (r: Read<int>)
    ensures r.Some? ==> |r.value.1| < |s|
  {
    DigitRunIsDigits(s);
    if DigitRun(s) == 0 then None else Some((DigitsValue(s[..DigitRun(s)]), s[DigitRun(s)..]))
  }

  function ReadLiteral(s: string): (r: Read<Value>)
    ensures r.Some? ==> |r.value.1| < |s|
  {
    if "NULL" <= s then Some((Null, s[4..]))
    else if "'" <= s then
      match ReadQuoted(s[1..])
      case None => None
      case Some(r) => Some((Txt(r.0), r.1))
    else if "X'" <= s then
      match ReadHex(s[2..])
      case None => None
      case Some(r) => Some((Blob(r.0), r.1))
    else
      match ReadInt(s)
      case None => None
      case Some(r) => Some((Int(r.0), r.1))
  }

  /** Literals separated by commas, up to and including the closing parenthesis. */
  function ReadRow(s: string): (r: Read<seq<Value>>)
    ensures r.Some? ==> |r.value.1| < |s|
    decreases |s|
  {
    match ReadLiteral(s)
    case None => None
    case Some((v, rest)) =>
      if rest != "" && rest[0] == ')' then Some(([v], rest[1..]))
      else if rest != "" && rest[0] == ',' then
        match ReadRow(rest[1..])
        case None => None
        case Some(r) => Some(([v] + r.0, r.1))
      else None
  }

  // ---------------------------------------------------------------- reading back

  /** What is in the database once the literal of `v` is executed. */
  function Stored(v: Value): Value {
    match v
    case Bool(b) => Int(if b then 1 else 0)
    case Blob(bytes) => if ValidUtf8(bytes) then Txt(bytes) else v
    case Other(shown) => Txt(shown)
    case _ => v
  }

  /** The character after a literal. */
  predicate Ends(rest: string) { rest != "" && (rest[0] == ',' || rest[0] == ')') }

  lemma {:induction false} QuotedReadsBack(s: string, rest: string)
    requires Ends(rest)
    ensures ReadQuoted(Doubled(s) + "'" + rest) == Some((s, rest))
  {
    var text := Doubled(s) + "'" + rest;
    if s != "" {
      QuotedReadsBack(s[1..], rest);
      var tail := Doubled(s[1..]) + "'" + rest;
      if s[0] == '\'' {
        assert text[2..] == tail;
        assert s == "'" + s[1..];
      } else {
        assert text[1..] == tail;
        assert s == [s[0]] + s[1..];
      }
    } else {
      assert text[1..] == rest;
    }
  }

  lemma HexFront(bytes: string)
    requires Percent.ByteText(bytes) && bytes != ""
    ensures Hex(bytes) == HexByte(bytes[0]) + Hex(bytes[1..])
  {
    hide Hex, HexByte;
    var n := |bytes| - 1;
    HexLast(bytes);
    if n > 0 {
      HexFront(bytes[..n]);
      HexLast(bytes[1..]);
      assert bytes[..n][1..] == bytes[1..][..n - 1];
    } else {
      HexLast(bytes[1..]);
      HexLast(bytes[..0]);
    }
  }

  lemma HexLast(bytes: string)
    requires Percent.ByteText(bytes)
    ensures if bytes == "" then Hex(bytes) == "" else Hex(bytes) == Hex(bytes[..|bytes| - 1]) + HexByte(bytes[|bytes| - 1])
  {
    hide HexByte;
  }

  lemma LowerHexReadsBack(d: nat)
    requires d < 16
    ensures HexValue(LowerHex(d)) == d && LowerHex(d) != '\''
  {
  }

  lemma {:induction false} HexReadsBack(bytes: string, rest: string)
    requires Percent.ByteText(bytes)
    ensures ReadHex(Hex(bytes) + "'" + rest) == Some((bytes, rest))
  {
    var text := Hex(bytes) + "'" + rest;
    if bytes == "" {
      assert text[1..] == rest;
    } else {
      HexReadsBack(bytes[1..], rest);
      HexFront(bytes);
      LowerHexReadsBack(bytes[0] as int / 16);
      LowerHexReadsBack(bytes[0] as int % 16);
      assert text[2..] == Hex(bytes[1..]) + "'" + rest;
      assert bytes == [bytes[0]] + bytes[1..];
    }
  }

  lemma DigitsScan(n: nat, rest: string)
    requires Ends(rest)
    ensures ReadDigits(Digits(n) + rest) == Some((n, rest))
  {
    hide DigitsValue, Digits, DigitRun;
    var digits := Digits(n);
    DigitsReadBack(n);
    DigitRunIs(digits, rest);
    assert (digits + rest)[..|digits|] == digits && (digits + rest)[|digits|..] == rest;
  }

  lemma IntReadsBack(n: int, rest: string)
    requires Ends(rest)
    ensures ReadInt(Itoa(n) + rest) == Some((n, rest))
  {
    hide ReadDigits, Digits;
    var s := Itoa(n) + rest;
    if n < 0 {
      DigitsScan(-n, rest);
      assert s[1..] == Digits(-n) + rest;
    } else {
      DigitsScan(n, rest);
      assert IsDigit(s[0]);
    }
  }

  lemma TextReadsBack(text: string, rest: string)
    requires Ends(rest)
    ensures ReadLiteral(Quoted(text) + rest) == Some((Txt(text), rest))
  {
    hide Doubled, ReadQuoted, ReadHex, ReadInt;
    QuotedReadsBack(text, rest);
    var s := Quoted(text) + rest;
    assert s[1..] == Doubled(text) + "'" + rest;
    assert s[0] == '\'' && s[..1] == "'";
  }

  lemma BlobReadsBack(bytes: string, rest: string)
    requires Percent.ByteText(bytes)
    ensures ReadLiteral("X'" + Hex(bytes) + "'" + rest) == Some((Blob(bytes), rest))
  {
    hide Hex, ReadQuoted, ReadHex, ReadInt;
    HexReadsBack(bytes, rest);
    var s := "X'" + Hex(bytes) + "'" + rest;
    assert s[2..] == Hex(bytes) + "'" + rest;
    assert s[..2] == "X'" && s[0] == 'X';
  }

  lemma NumberReadsBack(n: int, rest: string)
    requires Ends(rest)
    ensures ReadLiteral(Itoa(n) + rest) == Some((Int(n), rest))
  {
    hide Itoa, ReadQuoted, ReadHex, ReadInt;
    IntReadsBack(n, rest);
    assert (Itoa(n) + rest)[0] == Itoa(n)[0];
  }

  /** A literal reads back as the value it stands for, whatever characters a text holds. */
  lemma LiteralReadsBack(v: Value, rest: string)
    requires Storable(v) && Ends(rest)
    ensures ReadLiteral(Literal(v) + rest) == Some((Stored(v), rest))
  {
    hide Quoted, Hex, ReadLiteral, ValidUtf8;
    match v {
      case Null =>
        NullReadsBack(rest);
      case Int(n) =>
        NumberReadsBack(n, rest);
      case Bool(b) =>
        NumberReadsBack(if b then 1 else 0, rest);
        assert Itoa(0) == "0" && Itoa(1) == "1";
      case Txt(text) =>
        TextReadsBack(text, rest);
      case Other(shown) =>
        TextReadsBack(shown, rest);
      case Blob(bytes) =>
        if ValidUtf8(bytes) {
          TextReadsBack(bytes, rest);
        } else {
          BlobReadsBack(bytes, rest);
        }
    }
  }

  lemma NullReadsBack(rest: string)
    ensures ReadLiteral("NULL" + rest) == Some((Null, rest))
  {
    assert ("NULL" + rest)[..4] == "NULL" && ("NULL" + rest)[4..] == rest;
  }

  /** A value comes back unchanged exactly when it is NULL, an integer, a text or a blob that is no UTF-8. */
  lemma UnchangedExactly(v: Value)
    ensures Stored(v) == v <==> v.Null? || v.Int? || v.Txt? || (v.Blob? && !ValidUtf8(v.bytes))
  {
  }

  function StoredRow(row: seq<Value>): seq<Value> { seq(|row|, i requires 0 <= i < |row| => Stored(row[i])) }

  lemma {:induction false} LiteralsFront(row: seq<Value>)
    requires StorableRow(row) && row != []
    ensures row[0] in row && StorableRow(row[1..])
    ensures Literals(row) == Literal(row[0]) + (if |row| > 1 then "," else "") + Literals(row[1..])
  {
    hide Literal;
    assert StorableRow(row[1..]) && row[0] in row;
    var n := |row| - 1;
    if n == 0 {
      assert row[..0] == [] && row[1..] == [];
      assert Literals(row) == "" + "" + Literal(row[0]);
    } else {
      LiteralsFront(row[..n]);
      assert row[..n][1..] == row[1..][..n - 1] && row[1..][n - 1] == row[n];
      assert row[..n][0] == row[0];
    }
  }

  lemma {:induction false} RowReadsBack(row: seq<Value>, rest: string)
    requires StorableRow(row) && row != []
    ensures ReadRow(Literals(row) + ")" + rest) == Some((StoredRow(row), rest))
    decreases |row|
  {
    hide Literals, Literal, ReadLiteral, Stored, Storable;
    LiteralsFront(row);
    var v := row[0];
    if |row| == 1 {
      EmptyRow(row[1..]);
      LiteralReadsBack(v, ")" + rest);
      assert Literals(row) + ")" + rest == Literal(v) + (")" + rest);
      assert (")" + rest)[1..] == rest;
      assert StoredRow(row) == [Stored(v)];
    } else {
      RowReadsBack(row[1..], rest);
      var tail := Literals(row[1..]) + ")" + rest;
      LiteralReadsBack(v, "," + tail);
      assert Literals(row) + ")" + rest == Literal(v) + ("," + tail);
      assert ("," + tail)[1..] == tail;
      assert StoredRow(row) == [Stored(v)] + StoredRow(row[1..]);
    }
  }

  lemma EmptyRow(row: seq<Value>)
    requires row == []
    ensures Literals(row) == ""
  {
  }

  // ---------------------------------------------------------------- statements

  const HEAD := "INSERT INTO \""
  const MID := " VALUES("
  const TAIL := ";\n"

  /** The rest of a quoted identifier, after the opening quote; a doubled quote stands for one. */
  function ReadName(s: string): (r: Read<string>)
    ensures r.Some? ==> |r.value.1| < |s|
  {
    if s == "" then None
    else if s[0] == '"' then
      if |s| > 1 && s[1] == '"' then
        match ReadName(s[2..])
        case None => None
        case Some(r) => Some((['"'] + r.0, r.1))
      else Some(("", s[1..]))
    else
      match ReadName(s[1..])
      case None => None
      case Some(r) => Some(([s[0]] + r.0, r.1))
  }

  /** `VALUES(...)` and what ends a statement. */
  function ReadValues(s: string): (r: Read<seq<Value>>)
    ensures r.Some? ==> |r.value.1| < |s|
  {
    if !(MID <= s) then None
    else
      var row := if ")" <= s[|MID|..] then Some(([], s[|MID| + 1..])) else ReadRow(s[|MID|..]);
      match row
      case None => None
      case Some(r) => if TAIL <= r.1 then Some((r.0, r.1[|TAIL|..])) else None
  }

  function ReadInsert(s: string): (r: Read<(string, seq<Value>)>)
    ensures r.Some? ==> |r.value.1| < |s|
  {
    if !(HEAD <= s) then None
    else
      match ReadName(s[|HEAD|..])
      case None => None
      case Some(name) =>
        match ReadValues(name.1)
        case None => None
        case Some(row) => Some(((name.0, row.0), row.1))
  }

  /** Statement after statement to the end of the text. */
  function ReadInserts(s: string): Option<seq<(string, seq<Value>)>>
    decreases |s|
  {
    if s == "" then Some([])
    else
      match ReadInsert(s)
      case None => None
      case Some(first) =>
        match ReadInserts(first.1)
        case None => None
        case Some(more) => Some([first.0] + more)
  }

  lemma {:induction false} NameReadsBack(name: string, rest: string)
    requires rest != "" && rest[0] != '"'
    requires '"' !in name
    ensures ReadName(name + ['"'] + rest) == Some((name, rest))
  {
    var s := name + ['"'] + rest;
    if name != "" {
      NameReadsBack(name[1..], rest);
      assert s[1..] == name[1..] + ['"'] + rest;
      assert name == [name[0]] + name[1..];
      assert name[0] in name;
    } else {
      assert s[1..] == rest;
    }
  }

  lemma StartsBack(text: string, rest: string)
    ensures text <= text + rest && (text + rest)[|text|..] == rest
  {
  }

  lemma ValuesReadBack(row: seq<Value>, rest: string)
    requires StorableRow(row)
    ensures ReadValues(MID + Literals(row) + ")" + TAIL + rest) == Some((StoredRow(row), rest))
  {
    hide ReadRow, Literals, StorableRow;
    var s := MID + Literals(row) + ")" + TAIL + rest;
    var body := Literals(row) + ")" + (TAIL + rest);
    assert s == MID + body;
    StartsBack(MID, body);
    StartsBack(TAIL, rest);
    if row == [] {
      EmptyRow(row);
      assert body == ")" + (TAIL + rest);
      StartsBack(")", TAIL + rest);
      assert s[|MID| + 1..] == TAIL + rest;
      assert StoredRow(row) == [];
    } else {
      LiteralStarts(row);
      assert body[..1] == body[..1] && body[0] == Literals(row)[0];
      RowReadsBack(row, TAIL + rest);
    }
  }

  /** No literal starts with a parenthesis. */
  lemma LiteralStarts(row: seq<Value>)
    requires StorableRow(row) && row != []
    ensures Literals(row) != "" && Literals(row)[0] != ')'
  {
    LiteralsFront(row);
    assert row[0] in row;
    LiteralIsText(row[0]);
  }

  lemma LiteralIsText(v: Value)
    requires Storable(v)
    ensures Literal(v) != "" && Literal(v)[0] != ')'
  {
    hide Itoa, ValidUtf8, Hex, Doubled;
  }

  lemma InsertReadsBack(table: string, row: seq<Value>, rest: string)
    requires StorableRow(row) && '"' !in table
    ensures ReadInsert(Insert(table, row) + rest) == Some(((table, StoredRow(row)), rest))
  {
    hide ReadName, ReadValues, Literals, StorableRow;
    var values := MID + Literals(row) + ")" + TAIL + rest;
    var s := Insert(table, row) + rest;
    var named := table + ['"'] + values;
    assert s == HEAD + named;
    StartsBack(HEAD, named);
    assert values[0] == ' ';
    NameReadsBack(table, values);
    ValuesReadBack(row, rest);
  }

  /** A name that starts with quotes, read from behind the first `j` of them, is not that name. */
  lemma {:induction false} ShiftedName(name: string, j: nat, rest: string)
    requires rest != "" && rest[0] != '"'
    requires 1 <= j <= |name| && forall i :: 0 <= i < j ==> name[i] == '"'
    ensures var r := ReadName(name[j..] + ['"'] + rest); r.None? || r.value.0 != name
    decreases |name|
  {
    var m := name[j..];
    var s := m + ['"'] + rest;
    if m == "" {
      assert s[0] == '"' && s[1] == rest[0];
    } else if m[0] == '"' && |m| == 1 {
      assert s[1] == '"' && s[2..] == rest;
      assert name[1..][0] == '"';
    } else if m[0] == '"' && m[1] == '"' {
      ShiftedName(name[1..], j + 1, rest);
      assert name[1..][j + 1..] == m[2..];
      assert s[2..] == m[2..] + ['"'] + rest;
      assert name == [name[0]] + name[1..];
    }
  }

  lemma {:induction false} NameMisread(name: string, rest: string)
    requires '"' in name && rest != "" && rest[0] != '"'
    ensures var r := ReadName(name + ['"'] + rest); r.None? || r.value.0 != name
  {
    var s := name + ['"'] + rest;
    var more := name[1..];
    assert name == [name[0]] + more;
    if name[0] != '"' {
      NameMisread(more, rest);
      assert s[1..] == more + ['"'] + rest;
    } else if more == "" {
      assert s[1] == '"' && s[2..] == rest;
    } else if more[0] == '"' {
      ShiftedName(more, 1, rest);
      assert s[2..] == more[1..] + ['"'] + rest;
    }
  }

  lemma {:induction false} InsertsFront(table: string, rows: seq<seq<Value>>)
    requires rows != [] && forall row :: row in rows ==> StorableRow(row)
    ensures Inserts(table, rows) == Insert(table, rows[0]) + Inserts(table, rows[1..])
  {
    hide Insert, StorableRow;
    var n := |rows| - 1;
    if n == 0 {
      assert rows[..0] == [] && rows[1..] == [];
      assert Inserts(table, rows) == "" + Insert(table, rows[0]);
    } else {
      InsertsFront(table, rows[..n]);
      assert rows[..n][1..] == rows[1..][..n - 1] && rows[1..][n - 1] == rows[n];
      assert rows[..n][0] == rows[0];
      assert Inserts(table, rows[1..]) == Inserts(table, rows[1..][..n - 1]) + Insert(table, rows[n]);
      assert Inserts(table, rows) == Inserts(table, rows[..n]) + Insert(table, rows[n]);
      hide Inserts;
    }
  }

  /** The rows of a table as the dump brings them back. */
  function Restored(table: string, rows: seq<seq<Value>>): seq<(string, seq<Value>)> {
    seq(|rows|, i requires 0 <= i < |rows| => (table, StoredRow(rows[i])))
  }

  lemma {:induction false} PlainTableReadsBack(table: string, rows: seq<seq<Value>>)
    requires '"' !in table && forall row :: row in rows ==> StorableRow(row)
    ensures ReadInserts(Inserts(table, rows)) == Some(Restored(table, rows))
  {
    hide Insert, Inserts, ReadInsert, StorableRow, StoredRow;
    if rows == [] {
      NoInserts(table, rows);
    } else {
      PlainTableReadsBack(table, rows[1..]);
      InsertsFront(table, rows);
      assert rows[0] in rows;
      InsertReadsBack(table, rows[0], Inserts(table, rows[1..]));
      assert Restored(table, rows) == [(table, StoredRow(rows[0]))] + Restored(table, rows[1..]);
    }
  }

  lemma NoInserts(table: string, rows: seq<seq<Value>>)
    requires rows == []
    ensures Inserts(table, rows) == ""
  {
  }

  /**
  A dumped table reads back row by row, for all values and whatever quotes, commas, parentheses,
  semicolons or line breaks their texts hold, if and only if its name, printed as it is, holds no
  double quote.
  */
  lemma TableReadsBack(table: string, rows: seq<seq<Value>>)
    requires rows != [] && forall row :: row in rows ==> StorableRow(row)
    ensures ReadInserts(Inserts(table, rows)) == Some(Restored(table, rows)) <==> '"' !in table
  {
    if '"' !in table {
      PlainTableReadsBack(table, rows);
    } else {
      TableMisread(table, rows);
    }
  }

  lemma TableMisread(table: string, rows: seq<seq<Value>>)
    requires '"' in table && rows != [] && forall row :: row in rows ==> StorableRow(row)
    ensures ReadInserts(Inserts(table, rows)) != Some(Restored(table, rows))
  {
    hide Inserts, ReadName, ReadValues, StorableRow, StoredRow, Literals;
    InsertsFront(table, rows);
    assert rows[0] in rows;
    var values := MID + Literals(rows[0]) + ")" + TAIL + Inserts(table, rows[1..]);
    var named := table + ['"'] + values;
    var s := Inserts(table, rows);
    assert s == HEAD + named;
    StartsBack(HEAD, named);
    assert values[0] == ' ';
    NameMisread(table, values);
    assert Restored(table, rows)[0].0 == table;
  }
}
