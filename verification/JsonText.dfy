/**
 json_str, which acta_runner/include/runner_util.h and acta_cli/include/cli_util.h share word for word, and the error
 record of runner_util.h.  Text is bytes; the reader is the string grammar of section 7 of RFC 8259.
 */
module JsonText {
  import opened Db

  newtype Byte = b: int | 0 <= b < 256

  type Bytes = seq<Byte>

  const QUOTE: Byte := 0x22
  const BACKSLASH: Byte := 0x5C
  const NEWLINE: Byte := 0x0A

  predicate CString(s: Bytes) { forall i | 0 <= i < |s| :: s[i] != 0 }

  // %04x: lower-case digits
  function HexDigit(d: int): (c: Byte)
    requires 0 <= d < 16
  {
    if d < 10 then (0x30 + d) as Byte else (0x61 + d - 10) as Byte
  }

  // The switch of json_str
  function Escaped(c: Byte): Bytes {
    if c == QUOTE then [BACKSLASH, QUOTE]
    else if c == BACKSLASH then [BACKSLASH, BACKSLASH]
    else if c == NEWLINE then [BACKSLASH, 0x6E]
    else if c == 0x0D then [BACKSLASH, 0x72]
    else if c == 0x09 then [BACKSLASH, 0x74]
    else if c < 0x20 then [BACKSLASH, 0x75, 0x30, 0x30, HexDigit(c as int / 16), HexDigit(c as int % 16)]
    else [c]
  }

  function EscapedAll(s: Bytes): Bytes {
    if s == [] then [] else Escaped(s[0]) + EscapedAll(s[1..])
  }

  function Quoted(s: Bytes): Bytes { [QUOTE] + EscapedAll(s) + [QUOTE] }

  lemma {:induction false} EscapedSplit(s: Bytes, t: Bytes)
    ensures EscapedAll(s + t) == EscapedAll(s) + EscapedAll(t)
  {
    if s == [] {
      assert s + t == t;
    } else {
      assert (s + t)[1..] == s[1..] + t;
      EscapedSplit(s[1..], t);
    }
  }

  // The switch of json_str: what is written for one byte
  method WriteByte(out: Bytes, c: Byte) returns (r: Bytes)
    ensures r == out + Escaped(c)
  {
    match c {
      case 0x22 => r := out + [BACKSLASH, QUOTE];
      case 0x5C => r := out + [BACKSLASH, BACKSLASH];
      case 0x0A => r := out + [BACKSLASH, 0x6E];
      case 0x0D => r := out + [BACKSLASH, 0x72];
      case 0x09 => r := out + [BACKSLASH, 0x74];
      case _ =>
        if c < 0x20 {
          r := out + [BACKSLASH, 0x75, 0x30, 0x30, HexDigit(c as int / 16), HexDigit(c as int % 16)];
        } else {
          r := out + [c];
        }
    }
  }

  // json_str, byte by byte
  method JsonStr(s: Bytes) returns (out: Bytes)
    ensures out == Quoted(s)
    ensures CString(s) ==> ReadString(out) == Some((s, []))
    ensures forall i | 0 <= i < |out| :: out[i] >= 0x20
  {
    hide Escaped, EscapedAll, ReadString, CString;
    EscapedNothing(s);
    out := [QUOTE];
    var i := 0;
    while i < |s|
      invariant i <= |s|
      invariant out == [QUOTE] + EscapedAll(s[..i])
    {
      EscapedMore(s, i);
      out := WriteByte(out, s[i]);
      i := i + 1;
    }
    assert s[..i] == s;
    out := out + [QUOTE];
    if CString(s) {
      RoundTrip(s, []);
      assert Quoted(s) + [] == Quoted(s);
    }
    NoControl(s);
  }

  lemma EscapedNothing(s: Bytes)
    ensures EscapedAll(s[..0]) == []
  {
  }

  lemma {:induction false} EscapedMore(s: Bytes, i: nat)
    requires i < |s|
    ensures [QUOTE] + EscapedAll(s[..i + 1]) == [QUOTE] + EscapedAll(s[..i]) + Escaped(s[i])
  {
    hide Escaped, EscapedAll;
    EscapedSplit(s[..i], [s[i]]);
    assert s[..i + 1] == s[..i] + [s[i]];
    EscapedOne(s[i]);
    assert EscapedAll(s[..i + 1]) == EscapedAll(s[..i]) + Escaped(s[i]);
  }

  lemma EscapedOne(c: Byte)
    ensures EscapedAll([c]) == Escaped(c)
  {
    assert Escaped(c) + [] == Escaped(c);
  }

  // ----- RFC 8259, section 7 -----

  function HexValue(c: Byte): Option<int> {
    if 0x30 <= c <= 0x39 then Some(c as int - 0x30)
    else if 0x41 <= c <= 0x46 then Some(c as int - 0x41 + 10)
    else if 0x61 <= c <= 0x66 then Some(c as int - 0x61 + 10)
    else None
  }

  // 4HEXDIG
  function Hex4(t: Bytes): Option<int>
    requires |t| >= 4
  {
    var a, b, c, d := HexValue(t[0]), HexValue(t[1]), HexValue(t[2]), HexValue(t[3]);
    if a.None? || b.None? || c.None? || d.None? then None
    else Some(((a.value * 16 + b.value) * 16 + c.value) * 16 + d.value)
  }

  // The two-character escapes
  function ShortEscape(c: Byte): Option<Byte> {
    if c in {QUOTE, BACKSLASH, 0x2F} then Some(c)
    else if c == 0x62 then Some(0x08)
    else if c == 0x66 then Some(0x0C)
    else if c == 0x6E then Some(0x0A)
    else if c == 0x72 then Some(0x0D)
    else if c == 0x74 then Some(0x09)
    else None
  }

  // One `char` of the grammar: its bytes and how many bytes of text it takes; None when the grammar has none here.
  // Escapes beyond U+007F, whose UTF-8 form is longer, are not read.
  function ReadChar(t: Bytes): Option<(Byte, nat)> {
    if t == [] || t[0] == QUOTE || t[0] < 0x20 then None
    else if t[0] != BACKSLASH then Some((t[0], 1))
    else if |t| < 2 then None
    else if t[1] == 0x75 then
      if |t| < 6 then None
      else
        var v := Hex4(t[2..6]);
        if v.Some? && v.value < 0x80 then Some((v.value as Byte, 6)) else None
    else
      var e := ShortEscape(t[1]);
      if e.Some? then Some((e.value, 2)) else None
  }

  function ReadChars(t: Bytes): (Bytes, Bytes) {
    var c := ReadChar(t);
    if c.None? || c.value.1 == 0 || c.value.1 > |t| then ([], t)
    else
      var (s, rest) := ReadChars(t[c.value.1..]);
      ([c.value.0] + s, rest)
  }

  // string = quotation-mark *char quotation-mark: the value and the text after it
  function ReadString(t: Bytes): Option<(Bytes, Bytes)> {
    if t == [] || t[0] != QUOTE then None
    else
      var (s, rest) := ReadChars(t[1..]);
      if rest != [] && rest[0] == QUOTE then Some((s, rest[1..])) else None
  }

  lemma HexOfDigit(d: int)
    requires 0 <= d < 16
    ensures HexValue(HexDigit(d)) == Some(d)
  {
  }

  // A reader meets exactly the byte that was written.
  lemma CharRoundTrip(c: Byte, rest: Bytes)
    requires c != 0
    ensures ReadChar(Escaped(c) + rest) == Some((c, |Escaped(c)|))
    ensures (Escaped(c) + rest)[|Escaped(c)|..] == rest
  {
    var t := Escaped(c) + rest;
    if |Escaped(c)| == 6 {
      var e := Escaped(c);
      assert t[2..6] == e[2..6];
      HexOfDigit(0);
      HexOfDigit(c as int / 16);
      HexOfDigit(c as int % 16);
      assert e[2..6] == [0x30, 0x30, HexDigit(c as int / 16), HexDigit(c as int % 16)];
    }
  }

  // Reading goes on after the character.
  lemma ReadCharsStep(c: Byte, e: Bytes, tail: Bytes)
    requires e != [] && ReadChar(e + tail) == Some((c, |e|))
    ensures ReadChars(e + tail) == ([c] + ReadChars(tail).0, ReadChars(tail).1)
  {
    hide ReadChar;
    assert (e + tail)[|e|..] == tail;
  }

  lemma QuoteEnds(rest: Bytes)
    ensures ReadChars([QUOTE] + rest) == ([], [QUOTE] + rest)
  {
  }

  lemma {:induction false} CharsRoundTrip(s: Bytes, rest: Bytes)
    requires CString(s)
    ensures ReadChars(EscapedAll(s) + [QUOTE] + rest) == (s, [QUOTE] + rest)
  {
    var t := EscapedAll(s) + [QUOTE] + rest;
    hide Escaped, ReadChar, ReadChars;
    if s == [] {
      assert t == [QUOTE] + rest;
      QuoteEnds(rest);
    } else {
      var tail := EscapedAll(s[1..]) + [QUOTE] + rest;
      assert t == Escaped(s[0]) + tail;
      hide EscapedAll;
      CharRoundTrip(s[0], tail);
      EscapedSize(s[0]);
      ReadCharsStep(s[0], Escaped(s[0]), tail);
      CharsRoundTrip(s[1..], rest);
      assert s == [s[0]] + s[1..];
    }
  }

  lemma EscapedSize(c: Byte)
    ensures |Escaped(c)| > 0 && forall i | 0 <= i < |Escaped(c)| :: Escaped(c)[i] >= 0x20
  {
  }

  // Reading what was written gives the string back, and nothing of what follows is read.
  lemma RoundTrip(s: Bytes, rest: Bytes)
    requires CString(s)
    ensures ReadString(Quoted(s) + rest) == Some((s, rest))
  {
    var t := Quoted(s) + rest;
    assert t[1..] == EscapedAll(s) + [QUOTE] + rest;
    CharsRoundTrip(s, rest);
    assert ([QUOTE] + rest)[1..] == rest;
  }

  lemma {:induction false} EscapedHasNoControl(s: Bytes)
    ensures forall i | 0 <= i < |EscapedAll(s)| :: EscapedAll(s)[i] >= 0x20
  {
    if s != [] {
      hide Escaped;
      EscapedSize(s[0]);
      EscapedHasNoControl(s[1..]);
    }
  }

  lemma NoControl(s: Bytes)
    ensures forall i | 0 <= i < |Quoted(s)| :: Quoted(s)[i] >= 0x20
  {
    EscapedHasNoControl(s);
  }

  // ----- the error record -----

  function Ascii(s: string): (r: Bytes)
    requires forall i | 0 <= i < |s| :: s[i] < 128 as char
    ensures |r| == |s| && forall i | 0 <= i < |s| :: r[i] as int == s[i] as int
  {
    if s == [] then [] else [s[0] as int as Byte] + Ascii(s[1..])
  }

  // %d
  function Decimal(n: int): (r: Bytes)
    ensures forall i | 0 <= i < |r| :: r[i] >= 0x20
    decreases if n < 0 then 1 - n else n
  {
    if n < 0 then [0x2D] + Decimal(-n)
    else if n < 10 then [(0x30 + n) as Byte]
    else Decimal(n / 10) + [(0x30 + n % 10) as Byte]
  }

  // The number that a text of digits, after a minus sign or not, stands for
  function NumberOf(t: Bytes): int {
    if t == [] then 0
    else if t[0] == 0x2D then -NumberOf(t[1..])
    else 10 * NumberOf(t[..|t| - 1]) + (t[|t| - 1] as int - 0x30)
  }

  lemma {:induction false} DecimalReadsBack(n: int)
    ensures Decimal(n) != [] && NumberOf(Decimal(n)) == n
    ensures n >= 0 ==> Decimal(n)[0] != 0x2D
    decreases if n < 0 then 1 - n else n
  {
    if n < 0 {
      DecimalReadsBack(-n);
      assert Decimal(n)[1..] == Decimal(-n);
    } else if n >= 10 {
      DecimalReadsBack(n / 10);
      var d := Decimal(n);
      assert d[..|d| - 1] == Decimal(n / 10);
    } else {
      assert Decimal(n)[..0] == [];
    }
  }

  // The result codes of acta_db/include/db.h
  const DB_OK := 0
  const ERR_NOT_FOUND := -1
  const ERR_SQL := -2
  const ERR_ALLOC := -3
  const ERR_INVALID := -4
  const ERR_INVALID_DB := -5
  const ERR_DUPLICATE := -6
  const ERR_FK := -7

  const PREFIX := "ACTA_DB_ERR_"

  // Each code and what follows the prefix in its name
  const NAMES := [
    (ERR_NOT_FOUND, "NOT_FOUND"), (ERR_SQL, "SQL"), (ERR_ALLOC, "ALLOC"), (ERR_INVALID, "INVALID"),
    (ERR_INVALID_DB, "INVALID_DB"), (ERR_DUPLICATE, "DUPLICATE"), (ERR_FK, "FK")]

  function ExitOf(rc: int): int {
    if rc == DB_OK then 0
    else if rc == ERR_NOT_FOUND then 1
    else if rc == ERR_SQL then 2
    else if rc == ERR_ALLOC then 3
    else 4
  }

  // The text before the message
  function Head(name: string, code: int): Bytes
    requires Plain(name)
  {
    Ascii("{\"error\":\"") + Ascii(name) + Ascii("\",\"code\":") + Decimal(code) + Ascii(",\"message\":")
  }

  lemma HeadText(name: string, code: int)
    requires Plain(name)
    ensures Head(name, code) ==
      Ascii("{\"error\":\"") + Ascii(name) + Ascii("\",\"code\":") + Decimal(code) + Ascii(",\"message\":")
  {
    hide Ascii, Decimal;
  }

  // Characters that stand for themselves in a JSON string
  predicate Plain(name: string) {
    forall i | 0 <= i < |name| :: ' ' <= name[i] < 127 as char && name[i] != '"' && name[i] != '\\'
  }

  // A record is one line, and its message is read back as it was given.
  predicate IsRecord(line: Bytes, name: string, code: int, what: Bytes)
    requires Plain(name)
  {
    hide Ascii, ReadString, Decimal;
    var head := Head(name, code);
    && head <= line && line != [] && line[|line| - 1] == NEWLINE
    && (forall i | 0 <= i < |line| - 1 :: line[i] >= 0x20)
    && ReadString(line[|head|..]) == Some((what, Ascii("}\n")))
  }

  lemma RecordIsOneLine(name: string, code: int, what: Bytes)
    requires Plain(name) && CString(what)
    ensures IsRecord(Head(name, code) + Quoted(what) + Ascii("}\n"), name, code, what)
  {
    hide ReadString, Quoted, Decimal, Ascii, Head;
    var head, tail := Head(name, code), Ascii("}\n");
    var line := head + Quoted(what) + tail;
    assert line[|head|..] == Quoted(what) + tail;
    RoundTrip(what, tail);
    NoControl(what);
    HeadIsPrintable(name, code);
  }

  lemma HeadIsPrintable(name: string, code: int)
    requires Plain(name)
    ensures forall i | 0 <= i < |Head(name, code)| :: Head(name, code)[i] >= 0x20
  {
    hide Decimal, Ascii;
  }

  lemma NamesArePlain()
    ensures forall k | 0 <= k < |NAMES| :: Plain(PREFIX + NAMES[k].1)
    ensures Plain(PREFIX + "INVALID")
  {
    assert Plain("NOT_FOUND") && Plain("SQL") && Plain("ALLOC") && Plain("INVALID");
    assert Plain("INVALID_DB") && Plain("DUPLICATE") && Plain("FK");
    assert Plain(PREFIX);
    hide Plain;
    forall k | 0 <= k < |NAMES| ensures Plain(PREFIX + NAMES[k].1) {
      PlainTogether(PREFIX, NAMES[k].1);
    }
  }

  lemma PlainTogether(a: string, b: string)
    requires Plain(a) && Plain(b)
    ensures Plain(a + b)
  {
  }

  // The name and the exit code of each result code, written out
  function NameOf(rc: int): string {
    if rc == -1 then "NOT_FOUND" else if rc == -2 then "SQL" else if rc == -3 then "ALLOC"
    else if rc == -5 then "INVALID_DB" else if rc == -6 then "DUPLICATE" else if rc == -7 then "FK" else "INVALID"
  }

  lemma TableNames(rc: int)
    ensures forall k | 0 <= k < |NAMES| :: -7 <= NAMES[k].0 <= -1 && NAMES[k].1 == NameOf(NAMES[k].0)
    ensures -7 <= rc <= -1 ==> exists k :: 0 <= k < |NAMES| && NAMES[k].0 == rc
    ensures !(-7 <= rc <= -1) ==> NameOf(rc) == "INVALID"
    ensures NameOf(ERR_INVALID) == "INVALID"
  {
    assert NAMES[0].0 == -1 && NAMES[1].0 == -2 && NAMES[2].0 == -3 && NAMES[3].0 == -4;
    assert NAMES[4].0 == -5 && NAMES[5].0 == -6 && NAMES[6].0 == -7;
  }

  // finish_db_error of runner_util.h: a code that is not an error is reported as ERR_INVALID.
  method FinishDbError(rc: int, what: Bytes) returns (line: Bytes, exit: int)
    requires CString(what)
    ensures forall k | 0 <= k < |NAMES| && NAMES[k].0 == rc ::
      var name := PREFIX + NAMES[k].1;
      Plain(name) && IsRecord(line, name, rc, what) && exit == ExitOf(rc)
    ensures (forall k | 0 <= k < |NAMES| :: NAMES[k].0 != rc) ==>
      var name := PREFIX + "INVALID";
      Plain(name) && IsRecord(line, name, ERR_INVALID, what) && exit == 4
    ensures exit == if rc == -1 then 1 else if rc == -2 then 2 else if rc == -3 then 3 else 4
    ensures var name := "ACTA_DB_ERR_" + NameOf(rc);
      Plain(name) && IsRecord(line, name, if -7 <= rc <= -1 then rc else -4, what)
  {
    hide IsRecord, Head, Ascii, Decimal, Quoted, ReadString, CString, Plain;
    NamesArePlain();
    TableNames(rc);
    hide NameOf;
    var name: Option<string> := None;
    if rc != DB_OK {
      var i := 0;
      while i < |NAMES|
        invariant i <= |NAMES| && name == None
        invariant forall k | 0 <= k < i :: NAMES[k].0 != rc
      {
        if NAMES[i].0 == rc {
          name := Some(PREFIX + NAMES[i].1);
          break;
        }
        i := i + 1;
      }
    }
    var code := rc;
    if name.None? {
      code, name := ERR_INVALID, Some(PREFIX + "INVALID");
    }
    var text := JsonStr(what);
    line := Head(name.value, code) + text + Ascii("}\n");
    RecordIsOneLine(name.value, code, what);
    exit := ExitOf(code);
  }
}
