/** The string operations the data-access layer relies on: JavaScript's `trim`,
    `toUpperCase`, `startsWith` and `includes`; the camelCase-to-snake_case rewrite
    and the statement text of the `generateUpdateQuery` builders; decimal rendering
    of counts; and SQLite's BINARY ordering of text. */
module Text {

  /** JavaScript's WhiteSpace and LineTerminator characters: what `trim` removes. */
  predicate IsSpace(c: char) {
    || c == '\t' || c == '\n' || c == '\U{000B}' || c == '\U{000C}' || c == '\r' || c == ' '
    || c == '\U{00A0}' || c == '\U{1680}' || ('\U{2000}' <= c <= '\U{200A}')
    || c == '\U{2028}' || c == '\U{2029}' || c == '\U{202F}' || c == '\U{205F}'
    || c == '\U{3000}' || c == '\U{FEFF}'
  }

  /** Drops leading white space: the result is the longest suffix not starting with it. */
  function TrimStart(s: string): (r: string)
    ensures |r| <= |s| && r == s[|s| - |r|..]
    ensures forall i | 0 <= i < |s| - |r| :: IsSpace(s[i])
    ensures r == [] || !IsSpace(r[0])
    decreases |s|
  {
    if |s| > 0 && IsSpace(s[0]) then TrimStart(s[1..]) else s
  }

  /** Drops trailing white space: the result is the longest prefix not ending with it. */
  function TrimEnd(s: string): (r: string)
    ensures |r| <= |s| && r == s[..|r|]
    ensures forall i | |r| <= i < |s| :: IsSpace(s[i])
    ensures r == [] || !IsSpace(r[|r| - 1])
    decreases |s|
  {
    if |s| > 0 && IsSpace(s[|s| - 1]) then TrimEnd(s[..|s| - 1]) else s
  }

  /** `String.prototype.trim`. */
  function Trim(s: string): string {
    TrimEnd(TrimStart(s))
  }

  /** `toUpperCase` of one character, for the ASCII letters and for the long s
      (U+017F), whose upper case is the ASCII S. */
  function UpperChar(c: char): char {
    if 'a' <= c <= 'z' then (c as int - 32) as char
    else if c == '\U{017F}' then 'S'
    else c
  }

  function Upper(s: string): (r: string)
    ensures |r| == |s|
    ensures forall i | 0 <= i < |s| :: r[i] == UpperChar(s[i])
  {
    seq(|s|, i requires 0 <= i < |s| => UpperChar(s[i]))
  }

  predicate StartsWith(s: string, prefix: string) {
    |prefix| <= |s| && s[..|prefix|] == prefix
  }

  predicate ContainsAt(s: string, part: string, i: int) {
    0 <= i && i + |part| <= |s| && s[i..i + |part|] == part
  }

  /** `String.prototype.includes`. */
  predicate Contains(s: string, part: string) {
    exists i | 0 <= i <= |s| - |part| :: ContainsAt(s, part, i)
  }

  // ---------------------------------------------------------------------------
  // camelCase to snake_case, as `field.replace(/[A-Z]/g, l => '_' + l.toLowerCase())`

  predicate IsAsciiUpper(c: char) { 'A' <= c <= 'Z' }

  predicate IsAsciiLower(c: char) { 'a' <= c <= 'z' }

  function LowerOf(c: char): (r: char)
    requires IsAsciiUpper(c)
    ensures IsAsciiLower(r)
  {
    (c as int + 32) as char
  }

  function UpperOf(c: char): (r: char)
    requires IsAsciiLower(c)
    ensures IsAsciiUpper(r)
  {
    (c as int - 32) as char
  }

  /** The replacement of one character. */
  function SnakePiece(c: char): string {
    if IsAsciiUpper(c) then ['_', LowerOf(c)] else [c]
  }

  /** The rewrite applied by every `generateUpdateQuery`. */
  function SnakeCase(s: string): string {
    if |s| == 0 then [] else SnakePiece(s[0]) + SnakeCase(s[1..])
  }

  /** Every character of the rewrite is an underscore, a lower-case ASCII letter,
      or a character of the input that is not an upper-case ASCII letter; in
      particular no upper-case letter is left. */
  lemma {:induction false} SnakeCaseChars(s: string)
    ensures forall c | c in SnakeCase(s) :: c == '_' || IsAsciiLower(c) || (c in s && !IsAsciiUpper(c))
    ensures forall c | c in SnakeCase(s) :: !IsAsciiUpper(c)
  {
    if |s| > 0 {
      SnakeCaseChars(s[1..]);
      assert SnakeCase(s) == SnakePiece(s[0]) + SnakeCase(s[1..]);
      assert forall c | c in s[1..] :: c in s;
    }
  }

  /** The inverse reading: an underscore followed by a lower-case letter becomes
      that letter in upper case. */
  function CamelCase(s: string): string
    decreases |s|
  {
    if |s| == 0 then []
    else if |s| >= 2 && s[0] == '_' && IsAsciiLower(s[1]) then [UpperOf(s[1])] + CamelCase(s[2..])
    else [s[0]] + CamelCase(s[1..])
  }

  /** A field name without upper-case letters is left as it is. */
  lemma {:induction false} SnakeCaseKeepsLowerCase(s: string)
    requires forall i | 0 <= i < |s| :: !IsAsciiUpper(s[i])
    ensures SnakeCase(s) == s
  {
    if |s| > 0 {
      SnakeCaseKeepsLowerCase(s[1..]);
    }
  }

  /** A field name with an upper-case letter comes out with an underscore in it. */
  lemma {:induction false} SnakeCaseMarksUpperCase(s: string, i: int)
    requires 0 <= i < |s| && IsAsciiUpper(s[i])
    ensures '_' in SnakeCase(s)
  {
    if i == 0 {
      assert SnakeCase(s)[0] == '_';
    } else {
      SnakeCaseMarksUpperCase(s[1..], i - 1);
      var rest := SnakeCase(s[1..]);
      var k :| 0 <= k < |rest| && rest[k] == '_';
      assert SnakeCase(s)[|SnakePiece(s[0])| + k] == '_';
    }
  }

  /** A name with one upper-case letter gets an underscore and that letter in
      lower case in its place, and is otherwise unchanged. */
  lemma {:induction false} SnakeCaseOneUpper(s: string, i: int)
    requires 0 <= i < |s| && IsAsciiUpper(s[i])
    requires forall j | 0 <= j < |s| && j != i :: !IsAsciiUpper(s[j])
    ensures SnakeCase(s) == s[..i] + ['_', LowerOf(s[i])] + s[i + 1..]
  {
    if i == 0 {
      SnakeCaseKeepsLowerCase(s[1..]);
    } else {
      SnakeCaseOneUpper(s[1..], i - 1);
      assert s[1..][..i - 1] == s[1..i];
      assert s[1..][i..] == s[i + 1..];
      assert s[..i] == [s[0]] + s[1..i];
    }
  }

  /** The rewrite loses nothing on names without underscores: it can be undone. */
  lemma {:induction false} SnakeCaseRoundTrip(s: string)
    requires '_' !in s
    ensures CamelCase(SnakeCase(s)) == s
  {
    if |s| > 0 {
      SnakeCaseRoundTrip(s[1..]);
      var rest := SnakeCase(s[1..]);
      if IsAsciiUpper(s[0]) {
        var t := ['_', LowerOf(s[0])] + rest;
        assert SnakeCase(s) == t;
        assert t[2..] == rest;
        assert UpperOf(LowerOf(s[0])) == s[0];
      } else {
        var t := [s[0]] + rest;
        assert SnakeCase(s) == t;
        assert t[1..] == rest;
        assert s == [s[0]] + s[1..];
      }
    }
  }

  // ---------------------------------------------------------------------------
  // The statement text built by `generateUpdateQuery`

  function Join(parts: seq<string>, sep: string): string
    decreases |parts|
  {
    if |parts| == 0 then []
    else if |parts| == 1 then parts[0]
    else parts[0] + sep + Join(parts[1..], sep)
  }

  /** The SET clause: `field = ?` for each rewritten field, joined with ", ". */
  function SetClause(fields: seq<string>): string
  {
    Join(seq(|fields|, i requires 0 <= i < |fields| => SnakeCase(fields[i]) + " = ?"), ", ")
  }

  /** `UPDATE <table> SET <clause>, updatedAt = CURRENT_TIMESTAMP WHERE id = ?`. */
  function UpdateStatement(table: string, fields: seq<string>): string
  {
    "UPDATE " + table + " SET " + SetClause(fields) + ", updatedAt = CURRENT_TIMESTAMP WHERE id = " + "?"
  }

  function CountChar(s: string, c: char): nat
  {
    if |s| == 0 then 0 else (if s[0] == c then 1 else 0) + CountChar(s[1..], c)
  }

  lemma {:induction false} CountCharAppend(a: string, b: string, c: char)
    ensures CountChar(a + b, c) == CountChar(a, c) + CountChar(b, c)
  {
    if |a| == 0 {
      assert a + b == b;
    } else {
      assert (a + b)[1..] == a[1..] + b;
      CountCharAppend(a[1..], b, c);
    }
  }

  lemma {:induction false} CountCharAbsent(s: string, c: char)
    requires c !in s
    ensures CountChar(s, c) == 0
  {
    if |s| > 0 {
      CountCharAbsent(s[1..], c);
    }
  }

  lemma {:induction false} JoinPlaceholders(parts: seq<string>)
    requires forall i | 0 <= i < |parts| :: CountChar(parts[i], '?') == 1
    ensures CountChar(Join(parts, ", "), '?') == |parts|
    decreases |parts|
  {
    if |parts| >= 2 {
      JoinPlaceholders(parts[1..]);
      CountCharAbsent(", ", '?');
      CountCharAppend(parts[0], ", ", '?');
      CountCharAppend(parts[0] + ", ", Join(parts[1..], ", "), '?');
    }
  }

  lemma SetPiecePlaceholder(field: string)
    requires '?' !in field
    ensures CountChar(SnakeCase(field) + " = ?", '?') == 1
  {
    SnakeCaseChars(field);
    CountCharAbsent(SnakeCase(field), '?');
    assert CountChar(" = ?", '?') == 1;
    CountCharAppend(SnakeCase(field), " = ?", '?');
  }

  lemma SetClausePlaceholders(fields: seq<string>)
    requires forall i | 0 <= i < |fields| :: '?' !in fields[i]
    ensures CountChar(SetClause(fields), '?') == |fields|
  {
    var parts := seq(|fields|, i requires 0 <= i < |fields| => SnakeCase(fields[i]) + " = ?");
    forall i | 0 <= i < |parts|
      ensures CountChar(parts[i], '?') == 1
    {
      SetPiecePlaceholder(fields[i]);
    }
    JoinPlaceholders(parts);
  }

  lemma FixedTextPlaceholders()
    ensures CountChar("UPDATE ", '?') == 0
    ensures CountChar(" SET ", '?') == 0
    ensures CountChar(", updatedAt = CURRENT_TIMESTAMP WHERE id = ", '?') == 0
  {
    CountCharAbsent("UPDATE ", '?');
    CountCharAbsent(" SET ", '?');
    CountCharAbsent(", updatedAt = CURRENT_TIMESTAMP WHERE id = ", '?');
  }

  /** The generated statement has one placeholder per field plus one for the id, so it
      matches the parameter list the caller binds: the field values, then the id. */
  lemma UpdateStatementPlaceholders(table: string, fields: seq<string>)
    requires '?' !in table
    requires forall i | 0 <= i < |fields| :: '?' !in fields[i]
    ensures CountChar(UpdateStatement(table, fields), '?') == |fields| + 1
  {
    SetClausePlaceholders(fields);
    FixedTextPlaceholders();
    CountCharAbsent(table, '?');
    var u := "UPDATE ";
    var st := " SET ";
    var b := SetClause(fields);
    var c := ", updatedAt = CURRENT_TIMESTAMP WHERE id = ";
    CountCharAppend(u, table, '?');
    CountCharAppend(u + table, st, '?');
    CountCharAppend(u + table + st, b, '?');
    CountCharAppend(u + table + st + b, c, '?');
    CountCharAppend(u + table + st + b + c, "?", '?');
    assert CountChar("?", '?') == 1;
  }

  // ---------------------------------------------------------------------------
  // Decimal rendering of numbers, as template literals and TEXT affinity do it

  function DigitChar(d: nat): (r: char)
    requires d < 10
    ensures '0' <= r <= '9'
  {
    ('0' as int + d) as char
  }

  function NatToString(n: nat): (r: string)
    ensures |r| >= 1
    ensures forall i | 0 <= i < |r| :: '0' <= r[i] <= '9'
  {
    if n < 10 then [DigitChar(n)] else NatToString(n / 10) + [DigitChar(n % 10)]
  }

  function IntToString(i: int): string {
    if i < 0 then "-" + NatToString(-i) else NatToString(i)
  }

  function ParseNat(s: string): nat
    requires forall i | 0 <= i < |s| :: '0' <= s[i] <= '9'
  {
    if |s| == 0 then 0 else 10 * ParseNat(s[..|s| - 1]) + (s[|s| - 1] as int - '0' as int)
  }

  /** A count rendered into a message can be read back exactly. */
  lemma {:induction false} NatToStringRoundTrip(n: nat)
    ensures ParseNat(NatToString(n)) == n
  {
    if n >= 10 {
      NatToStringRoundTrip(n / 10);
      var s := NatToString(n);
      assert s[..|s| - 1] == NatToString(n / 10);
    }
  }

  predicate IsDigits(s: string) {
    |s| > 0 && forall i | 0 <= i < |s| :: '0' <= s[i] <= '9'
  }

  /** A text that spells an integer: decimal digits after an optional minus sign.
      INTEGER and NUMERIC affinity store such a text as the integer it spells. */
  predicate SpellsInteger(s: string) {
    IsDigits(s) || (|s| > 1 && s[0] == '-' && IsDigits(s[1..]))
  }

  function ParseInt(s: string): int
    requires SpellsInteger(s)
  {
    if s[0] == '-' then -(ParseNat(s[1..]) as int) else ParseNat(s)
  }

  /** A number rendered as text spells an integer, and reads back as that number. */
  lemma IntToStringRoundTrip(i: int)
    ensures SpellsInteger(IntToString(i))
    ensures ParseInt(IntToString(i)) == i
  {
    var s := IntToString(i);
    if i < 0 {
      NatToStringRoundTrip(-i);
      assert s[1..] == NatToString(-i);
    } else {
      NatToStringRoundTrip(i);
    }
  }

  // ---------------------------------------------------------------------------
  // SQLite's BINARY collation: text compares character by character

  predicate StrLe(a: string, b: string)
    decreases |a|
  {
    |a| == 0 || (|b| > 0 && (a[0] < b[0] || (a[0] == b[0] && StrLe(a[1..], b[1..]))))
  }

  predicate StrLt(a: string, b: string) {
    StrLe(a, b) && a != b
  }

  lemma {:induction false} StrLeTotal(a: string, b: string)
    ensures StrLe(a, b) || StrLe(b, a)
    decreases |a|
  {
    if |a| > 0 && |b| > 0 && a[0] == b[0] {
      StrLeTotal(a[1..], b[1..]);
    }
  }

  lemma {:induction false} StrLeTransitive(a: string, b: string, c: string)
    requires StrLe(a, b) && StrLe(b, c)
    ensures StrLe(a, c)
    decreases |a|
  {
    if |a| > 0 && a[0] == b[0] && b[0] == c[0] {
      StrLeTransitive(a[1..], b[1..], c[1..]);
    }
  }

  lemma {:induction false} StrLeAntisymmetric(a: string, b: string)
    requires StrLe(a, b) && StrLe(b, a)
    ensures a == b
    decreases |a|
  {
    if |a| > 0 {
      StrLeAntisymmetric(a[1..], b[1..]);
      assert a == [a[0]] + a[1..] && b == [b[0]] + b[1..];
    }
  }

  lemma StrLeReflexive(a: string)
    ensures StrLe(a, a)
  {
    StrLeTotal(a, a);
  }
}
