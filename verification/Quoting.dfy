/** Quoting in crates/graphnight-sql/src/dialects.rs, against the lexers that read the quoted text back. */
module Quoting {
  import opened Results

  function Replaced(s: string, c: char, with: string): string {
    if s == [] then [] else (if s[0] == c then with else [s[0]]) + Replaced(s[1..], c, with)
  }

  function Doubled(s: string, quote: char): string {
    Replaced(s, quote, [quote, quote])
  }

  /** `quote_ident`: double quotes everywhere except MySQL, which uses backquotes. */
  function QuoteIdent(s: string, quote: char): string {
    [quote] + Doubled(s, quote) + [quote]
  }

  /** MySQL's literal escape: backslashes are doubled first, then quotes. */
  function EscapeLiteral(s: string): string {
    Doubled(Doubled(s, '\\'), '\'')
  }

  // ---------- lexers ----------

  function Prepend(text: string, r: Option<(string, string)>): Option<(string, string)> {
    match r
    case None => None
    case Some((s, rest)) => Some((text + s, rest))
  }

  /** Reads the body of a delimited identifier or literal, after its opening quote: section 5.2 of
      ISO/IEC 9075:1992.  Two quotes stand for one; a single quote ends the body. */
  function ReadBody(text: string, quote: char): Option<(string, string)> {
    if text == [] then None
    else if text[0] != quote then Prepend([text[0]], ReadBody(text[1..], quote))
    else if |text| > 1 && text[1] == quote then Prepend([quote], ReadBody(text[2..], quote))
    else Some(([], text[1..]))
  }

  function ReadQuoted(text: string, quote: char): Option<(string, string)> {
    if text != [] && text[0] == quote then ReadBody(text[1..], quote) else None
  }

  // What a backslash followed by `c` stands for in a MySQL literal.
  function Unescaped(c: char): string {
    match c
    case '0' => "\0"
    case 'b' => "\U{8}"
    case 'n' => "\n"
    case 'r' => "\r"
    case 't' => "\t"
    case 'Z' => "\U{1A}"
    case '%' => "\\%"
    case '_' => "\\_"
    case _ => [c]
  }

  /** Reads the body of a MySQL literal with backslash escapes on. */
  function ReadEscapedBody(text: string): Option<(string, string)> {
    if text == [] then None
    else if text[0] == '\\' then
      if |text| == 1 then None else Prepend(Unescaped(text[1]), ReadEscapedBody(text[2..]))
    else if text[0] != '\'' then Prepend([text[0]], ReadEscapedBody(text[1..]))
    else if |text| > 1 && text[1] == '\'' then Prepend("'", ReadEscapedBody(text[2..]))
    else Some(([], text[1..]))
  }

  predicate StartsWith(text: string, c: char) {
    text != [] && text[0] == c
  }

  // ---------- quoting is undone by lexing ----------

  lemma {:induction false} ReadDoubled(s: string, quote: char, rest: string)
    requires !StartsWith(rest, quote)
    ensures ReadBody(Doubled(s, quote) + [quote] + rest, quote) == Some((s, rest))
  {
    var text := Doubled(s, quote) + [quote] + rest;
    if s == [] {
      assert text == [quote] + rest;
    } else {
      var tail := Doubled(s[1..], quote) + [quote] + rest;
      ReadDoubled(s[1..], quote, rest);
      assert s == [s[0]] + s[1..];
      if s[0] == quote {
        assert text == [quote, quote] + tail;
        assert text[2..] == tail;
      } else {
        assert text == [s[0]] + tail;
        assert text[1..] == tail;
      }
    }
  }

  /** The only text that reads as `s` followed by `rest` is the doubled `s`, a quote and `rest`. */
  lemma {:induction false} ReadIsDoubled(text: string, quote: char, s: string, rest: string)
    requires ReadBody(text, quote) == Some((s, rest))
    ensures text == Doubled(s, quote) + [quote] + rest && !StartsWith(rest, quote)
    decreases |text|
  {
    if text[0] != quote {
      var (s', rest') := ReadBody(text[1..], quote).value;
      ReadIsDoubled(text[1..], quote, s', rest');
      assert s == [text[0]] + s' && s[1..] == s';
      assert text == [text[0]] + text[1..];
    } else if |text| > 1 && text[1] == quote {
      var (s', rest') := ReadBody(text[2..], quote).value;
      ReadIsDoubled(text[2..], quote, s', rest');
      assert s == [quote] + s' && s[1..] == s';
      assert text == [quote, quote] + text[2..];
    }
  }

  /** A quoted identifier is read back, with nothing of what follows, exactly when what follows does
      not begin with the quote. */
  lemma QuotedIdentReadsBack(s: string, quote: char, rest: string)
    ensures ReadQuoted(QuoteIdent(s, quote) + rest, quote) == Some((s, rest)) <==> !StartsWith(rest, quote)
  {
    var text := QuoteIdent(s, quote) + rest;
    assert text[1..] == Doubled(s, quote) + [quote] + rest;
    if !StartsWith(rest, quote) {
      ReadDoubled(s, quote, rest);
    } else if ReadQuoted(text, quote) == Some((s, rest)) {
      ReadIsDoubled(text[1..], quote, s, rest);
    }
  }

  lemma QuoteIdentInjective(a: string, b: string, quote: char)
    requires QuoteIdent(a, quote) == QuoteIdent(b, quote)
    ensures a == b
  {
    QuotedIdentReadsBack(a, quote, []);
    QuotedIdentReadsBack(b, quote, []);
    assert QuoteIdent(a, quote) + [] == QuoteIdent(b, quote) + [];
  }

  // ---------- the MySQL literal ----------

  lemma {:induction false} ReplacedConcat(a: string, b: string, c: char, with: string)
    ensures Replaced(a + b, c, with) == Replaced(a, c, with) + Replaced(b, c, with)
  {
    if a == [] {
      assert a + b == b;
    } else {
      assert (a + b)[1..] == a[1..] + b;
      ReplacedConcat(a[1..], b, c, with);
    }
  }

  // Both replacements act on one character at a time.
  lemma {:induction false} EscapeStep(s: string)
    requires s != []
    ensures EscapeLiteral(s) == EscapeLiteral([s[0]]) + EscapeLiteral(s[1..])
    ensures EscapeLiteral([s[0]]) == (if s[0] == '\\' then "\\\\" else if s[0] == '\'' then "''" else [s[0]])
  {
    assert s == [s[0]] + s[1..];
    ReplacedConcat([s[0]], s[1..], '\\', "\\\\");
    ReplacedConcat(Doubled([s[0]], '\\'), Doubled(s[1..], '\\'), '\'', "''");
    assert Doubled([s[0]], '\\') == if s[0] == '\\' then "\\\\" else [s[0]];
    assert "\\\\"[1..] == "\\";
  }

  /** With backslash escapes on, the server reads the escaped literal back as the value. */
  lemma {:induction false} EscapedLiteralReadsBack(s: string, rest: string)
    requires !StartsWith(rest, '\'')
    ensures ReadEscapedBody(EscapeLiteral(s) + "'" + rest) == Some((s, rest))
  {
    var text := EscapeLiteral(s) + "'" + rest;
    if s == [] {
      assert text == "'" + rest;
    } else {
      var tail := EscapeLiteral(s[1..]) + "'" + rest;
      EscapedLiteralReadsBack(s[1..], rest);
      EscapeStep(s);
      assert s == [s[0]] + s[1..];
      assert text == EscapeLiteral([s[0]]) + tail;
      if s[0] == '\\' || s[0] == '\'' {
        assert text[2..] == tail;
      } else {
        assert text[1..] == tail;
      }
    }
  }

  /** With backslash escapes off, the literal ends at the same place; its backslashes stay doubled. */
  lemma EscapedLiteralEndsWithoutEscapes(s: string, rest: string)
    requires !StartsWith(rest, '\'')
    ensures ReadBody(EscapeLiteral(s) + "'" + rest, '\'') == Some((Doubled(s, '\\'), rest))
  {
    ReadDoubled(Doubled(s, '\\'), '\'', rest);
  }

  /** The order of the two replacements makes no difference to the text. */
  lemma {:induction false} EscapeStepsCommute(s: string)
    ensures EscapeLiteral(s) == Doubled(Doubled(s, '\''), '\\')
  {
    if s != [] {
      EscapeStepsCommute(s[1..]);
      EscapeStep(s);
      assert s == [s[0]] + s[1..];
      ReplacedConcat([s[0]], s[1..], '\'', "''");
      ReplacedConcat(Doubled([s[0]], '\''), Doubled(s[1..], '\''), '\\', "\\\\");
      assert Doubled([s[0]], '\'') == if s[0] == '\'' then "''" else [s[0]];
      assert "''"[1..] == "'";
    }
  }

  /** Doubling quotes alone would not do: with escapes on, a trailing backslash hides the closing quote. */
  lemma QuotesAloneAreNotEnough(rest: string)
    ensures ReadEscapedBody(Doubled("\\", '\'') + "'" + rest) != Some(("\\", rest))
  {
    var text := Doubled("\\", '\'') + "'" + rest;
    assert text[0] == '\\' && text[1] == '\'' && text[2..] == rest;
    assert "\\"[1..] == "";
    ReadEscapedShrinks(rest);
  }

  lemma {:induction false} ReadEscapedShrinks(text: string)
    ensures ReadEscapedBody(text).Some? ==> |ReadEscapedBody(text).value.1| < |text|
    decreases |text|
  {
    if text != [] {
      ReadEscapedShrinks(text[1..]);
      if |text| > 1 { ReadEscapedShrinks(text[2..]); }
    }
  }
}
