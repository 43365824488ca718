/**
 * Identifier quoting (crates/vlorql-core/src/compile/dialect_config.rs) and its inverse, a scanner
 * for delimited identifiers (section 5.2 of SQL-92).
 */
module Quoting {
  import opened Prelude

  /** Every `quote` in `s` written twice. */
  function Doubled(s: string, quote: char): string {
    if s == [] then []
    else (if s[0] == quote then [quote, quote] else [s[0]]) + Doubled(s[1..], quote)
  }

  /** Styles other than the four named ones fall back to double quotes. */
  function QuoteIdentifier(style: string, ident: string): string {
    if style == "backtick" then "`" + Doubled(ident, '`') + "`"
    else if style == "bracket" then "[" + ident + "]"
    else if style == "never" then ident
    else "\"" + Doubled(ident, '"') + "\""
  }

  predicate Doubles(style: string) {
    style != "bracket" && style != "never"
  }

  function QuoteOf(style: string): char {
    if style == "backtick" then '`' else '"'
  }

  /** Quoting doubles quotes character by character and changes nothing else. */
  lemma {:induction false} DoubledOfConcat(s: string, t: string, quote: char)
    ensures Doubled(s + t, quote) == Doubled(s, quote) + Doubled(t, quote)
  {
    if s == [] {
      assert s + t == t;
    } else {
      assert (s + t)[1..] == s[1..] + t;
      DoubledOfConcat(s[1..], t, quote);
    }
  }

  /** What each style makes of a name with its own quote in it; an unknown style is double quotes. */
  lemma QuotedByStyle()
    ensures QuoteIdentifier("double_quote", "a\"b") == "\"a\"\"b\""
    ensures QuoteIdentifier("backtick", "a`b") == "`a``b`"
    ensures QuoteIdentifier("bracket", "a[b") == "[a[b]"
    ensures QuoteIdentifier("never", "a\"b") == "a\"b"
    ensures forall style, name :: style !in {"double_quote", "backtick", "bracket", "never"} ==>
      QuoteIdentifier(style, name) == QuoteIdentifier("double_quote", name)
  {
    DoubledChar('a', '"');
    DoubledChar('b', '"');
    DoubledChar('"', '"');
    DoubledChar('a', '`');
    DoubledChar('b', '`');
    DoubledChar('`', '`');
    hide Doubled;
    forall quote | quote in "\"`" ensures Doubled(['a', quote, 'b'], quote) == ['a', quote, quote, 'b'] {
      DoubledOfConcat(['a'], [quote, 'b'], quote);
      DoubledOfConcat([quote], ['b'], quote);
      assert ['a'] + [quote, 'b'] == ['a', quote, 'b'] && [quote] + ['b'] == [quote, 'b'];
    }
    assert "a\"b" == ['a', '"', 'b'] && "a`b" == ['a', '`', 'b'];
  }

  lemma DoubledChar(c: char, quote: char)
    ensures Doubled([c], quote) == if c == quote then [quote, quote] else [c]
  {
    assert [c][1..] == [];
  }

  // ---- the scanner --------------------------------------------------------

  datatype Scanned = Scanned(ident: string, rest: string)

  predicate StartsWith(s: string, c: char) {
    s != [] && s[0] == c
  }

  /** The identifier up to the first `close` that is not doubled, and what follows it. */
  function ScanBody(text: string, close: char): Option<Scanned> {
    if text == [] then None
    else if text[0] != close then
      match ScanBody(text[1..], close)
      case Some(s) => Some(Scanned([text[0]] + s.ident, s.rest))
      case None => None
    else if StartsWith(text[1..], close) then
      match ScanBody(text[2..], close)
      case Some(s) => Some(Scanned([close] + s.ident, s.rest))
      case None => None
    else Some(Scanned([], text[1..]))
  }

  function Scan(text: string, open: char, close: char): Option<Scanned> {
    if StartsWith(text, open) then ScanBody(text[1..], close) else None
  }

  // ---- printer and scanner are inverse ------------------------------------

  lemma ScansOther(c: char, tail: string, close: char, ident: string, rest: string)
    requires c != close && ScanBody(tail, close) == Some(Scanned(ident, rest))
    ensures ScanBody([c] + tail, close) == Some(Scanned([c] + ident, rest))
  {
    assert ([c] + tail)[1..] == tail;
  }

  lemma ScansDoubled(tail: string, close: char, ident: string, rest: string)
    requires ScanBody(tail, close) == Some(Scanned(ident, rest))
    ensures ScanBody([close, close] + tail, close) == Some(Scanned([close] + ident, rest))
  {
    var text := [close, close] + tail;
    assert text[1..] == [close] + tail && text[2..] == tail;
  }

  lemma ScansEnd(rest: string, close: char)
    requires !StartsWith(rest, close)
    ensures ScanBody([close] + rest, close) == Some(Scanned([], rest))
  {
    assert ([close] + rest)[1..] == rest;
  }

  lemma {:induction false} BodyScans(s: string, rest: string, close: char)
    requires !StartsWith(rest, close)
    ensures ScanBody(Doubled(s, close) + [close] + rest, close) == Some(Scanned(s, rest))
  {
    hide ScanBody;
    var text := Doubled(s, close) + [close] + rest;
    if s == [] {
      assert text == [close] + rest;
      ScansEnd(rest, close);
    } else {
      BodyScans(s[1..], rest, close);
      var tail := Doubled(s[1..], close) + [close] + rest;
      assert s == [s[0]] + s[1..];
      if s[0] == close {
        assert text == [close, close] + tail;
        ScansDoubled(tail, close, s[1..], rest);
      } else {
        assert text == [s[0]] + tail;
        ScansOther(s[0], tail, close, s[1..], rest);
      }
    }
  }

  lemma {:induction false} ScannedBody(text: string, close: char)
    requires ScanBody(text, close).Some?
    ensures
      var s := ScanBody(text, close).value;
      text == Doubled(s.ident, close) + [close] + s.rest && !StartsWith(s.rest, close)
    decreases |text|
  {
    if text[0] != close {
      ScannedBody(text[1..], close);
      assert text == [text[0]] + text[1..];
    } else if StartsWith(text[1..], close) {
      ScannedBody(text[2..], close);
      assert text == [close, close] + text[2..];
    } else {
      assert text == [close] + text[1..];
    }
  }

  /** The scanner accepts exactly the quoted identifiers, and stops exactly where they end. */
  lemma ScanIffQuoted(style: string, text: string, ident: string, rest: string)
    requires Doubles(style)
    ensures Scan(text, QuoteOf(style), QuoteOf(style)) == Some(Scanned(ident, rest)) <==>
      text == QuoteIdentifier(style, ident) + rest && !StartsWith(rest, QuoteOf(style))
  {
    hide ScanBody, Doubled;
    var q := QuoteOf(style);
    assert QuoteIdentifier(style, ident) == [q] + Doubled(ident, q) + [q];
    if text == QuoteIdentifier(style, ident) + rest && !StartsWith(rest, q) {
      BodyScans(ident, rest, q);
      assert text[1..] == Doubled(ident, q) + [q] + rest;
    }
    if Scan(text, q, q) == Some(Scanned(ident, rest)) {
      ScannedBody(text[1..], q);
      assert text == [q] + text[1..];
    }
  }

  lemma QuotingIsInjective(style: string, s: string, t: string)
    requires QuoteIdentifier(style, s) == QuoteIdentifier(style, t)
    ensures s == t
  {
    if Doubles(style) {
      var text := QuoteIdentifier(style, s);
      assert text == text + "";
      ScanIffQuoted(style, text, s, "");
      ScanIffQuoted(style, text, t, "");
    } else if style == "bracket" {
      assert s == QuoteIdentifier(style, s)[1..|s| + 1];
      assert t == QuoteIdentifier(style, t)[1..|t| + 1];
    }
  }

  /** A quoted name ends at one place only, whatever follows it. */
  lemma QuotedPrefixIsUnique(style: string, s: string, t: string, rest: string, rest': string)
    requires Doubles(style) && !StartsWith(rest, QuoteOf(style)) && !StartsWith(rest', QuoteOf(style))
    requires QuoteIdentifier(style, s) + rest == QuoteIdentifier(style, t) + rest'
    ensures s == t && rest == rest'
  {
    hide Scan, QuoteIdentifier;
    var text := QuoteIdentifier(style, s) + rest;
    ScanIffQuoted(style, text, s, rest);
    ScanIffQuoted(style, text, t, rest');
  }

  /** A qualified name can be read back, whatever dots and quotes its parts contain. */
  lemma QualifiedNameIsUnambiguous(style: string, table: string, column: string, table': string, column': string)
    requires Doubles(style)
    requires QuoteIdentifier(style, table) + ("." + QuoteIdentifier(style, column))
          == QuoteIdentifier(style, table') + ("." + QuoteIdentifier(style, column'))
    ensures table == table' && column == column'
  {
    hide QuoteIdentifier;
    var rest, rest' := "." + QuoteIdentifier(style, column), "." + QuoteIdentifier(style, column');
    QuotedPrefixIsUnique(style, table, table', rest, rest');
    assert rest[1..] == QuoteIdentifier(style, column);
    assert rest'[1..] == QuoteIdentifier(style, column');
    QuotingIsInjective(style, column, column');
  }

  lemma {:induction false} DoubledLength(s: string, quote: char)
    ensures |Doubled(s, quote)| >= |s|
    ensures |Doubled(s, quote)| == |s| <==> quote !in s
  {
    if s != [] {
      DoubledLength(s[1..], quote);
      assert s == [s[0]] + s[1..];
    }
  }

  lemma {:induction false} DoubledIsSame(s: string, quote: char)
    requires quote !in s
    ensures Doubled(s, quote) == s
  {
    if s != [] {
      DoubledIsSame(s[1..], quote);
      assert s == [s[0]] + s[1..];
    }
  }

  /** Brackets escape nothing: they can be read back exactly when the name has no closing bracket. */
  lemma BracketScansIff(ident: string, rest: string)
    requires !StartsWith(rest, ']')
    ensures Scan(QuoteIdentifier("bracket", ident) + rest, '[', ']') == Some(Scanned(ident, rest)) <==>
      ']' !in ident
  {
    var text := QuoteIdentifier("bracket", ident) + rest;
    assert text[1..] == ident + "]" + rest;
    DoubledLength(ident, ']');
    if ']' !in ident {
      DoubledIsSame(ident, ']');
      BodyScans(ident, rest, ']');
    }
    if Scan(text, '[', ']') == Some(Scanned(ident, rest)) {
      ScannedBody(text[1..], ']');
    }
  }
}
