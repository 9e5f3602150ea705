/** The triple-quoted literal the generated program embeds a text in (`_py_str`,
    deployer/ir_to_python.py), and what reading it back gives (string literals,
    section 2.4.1 of the Python language reference). */
module PyString {
  import opened Common
  import HostState

  const QUOTES := "\"\"\""

  predicate StartsWith(s: string, prefix: string) {
    |s| >= |prefix| && s[..|prefix|] == prefix
  }

  /** `StartsWith` for three quotes. */
  predicate ThreeQuotes(s: string) {
    |s| >= 3 && s[0] == '\"' && s[1] == '\"' && s[2] == '\"'
  }

  /** `str.replace`: every occurrence from the left, none overlapping. */
  function Replace(s: string, what: string, into: string): string
    requires what != ""
    decreases |s|
  {
    if s == "" then ""
    else if StartsWith(s, what) then into + Replace(s[|what|..], what, into)
    else [s[0]] + Replace(s[1..], what, into)
  }

  predicate EndsInQuote(s: string) {
    s != "" && s[|s| - 1] == '\"'
  }

  /** `_py_str`. */
  function PyStr(s: string): string {
    var escaped := Replace(Replace(s, "\\", "\\\\"), QUOTES, "\\\"\\\"\\\"");
    QUOTES + (if EndsInQuote(escaped) then escaped + "\n" else escaped) + QUOTES
  }

  /** Both replacements in one pass. */
  function Escape(s: string): string
    decreases |s|
  {
    if s == "" then ""
    else if s[0] == '\\' then "\\\\" + Escape(s[1..])
    else if ThreeQuotes(s) then "\\\"\\\"\\\"" + Escape(s[3..])
    else [s[0]] + Escape(s[1..])
  }

  // ---------------------------------------------------------------------
  // Reading
  // ---------------------------------------------------------------------

  /** The character an escape stands for; None for those with digits or names,
      which are never printed. */
  function Unescape(c: char): Option<string> {
    if c == '\n' then Some("")
    else if c == '\\' || c == '\'' || c == '\"' then Some([c])
    else if c == 'n' then Some("\n")
    else if c == 't' then Some("\t")
    else if c == 'r' then Some("\r")
    else if c == 'a' then Some([7 as char])
    else if c == 'b' then Some([8 as char])
    else if c == 'v' then Some([11 as char])
    else if c == 'f' then Some([12 as char])
    else if '0' <= c <= '7' || c == 'x' || c == 'N' || c == 'u' || c == 'U' then None
    else Some(['\\', c])
  }

  datatype Literal = Literal(value: string, rest: string)

  /** The body of a triple-quoted literal, up to its closing delimiter, and what
      follows it. */
  function ReadBody(text: string): Option<Literal>
    decreases |text|
  {
    if text == "" then None
    else if ThreeQuotes(text) then Some(Literal("", text[3..]))
    else if text[0] != '\\' then Before([text[0]], ReadBody(text[1..]))
    else if |text| == 1 || Unescape(text[1]).None? then None
    else Before(Unescape(text[1]).value, ReadBody(text[2..]))
  }

  function Before(head: string, tail: Option<Literal>): Option<Literal> {
    if tail.None? then None else Some(Literal(head + tail.value.value, tail.value.rest))
  }

  /** A literal at the start of a program text. */
  function ReadLiteral(text: string): Option<Literal> {
    if ThreeQuotes(text) then ReadBody(text[3..]) else None
  }

  /** What reading a source file makes of its line ends. */
  function Universal(s: string): string
    decreases |s|
  {
    if s == "" then ""
    else if s[0] == '\r' then "\n" + Universal(if |s| > 1 && s[1] == '\n' then s[2..] else s[1..])
    else [s[0]] + Universal(s[1..])
  }

  /** A literal at the start of a source file: one with a null character is
      refused as a whole. */
  function ReadFile(source: string): Option<Literal> {
    if '\0' in source then None else ReadLiteral(Universal(source))
  }

  // ---------------------------------------------------------------------
  // The round trip
  // ---------------------------------------------------------------------

  /** What comes back: the text, and a newline if it ended in a quote. */
  function Embedded(s: string): string {
    if EndsInQuote(s) then s + "\n" else s
  }

  predicate NoReturn(s: string) {
    '\r' !in s
  }

  lemma QuotesStart(s: string)
    ensures StartsWith(s, QUOTES) <==> ThreeQuotes(s)
  {
    if |s| >= 3 {
      assert s[..3] == [s[0], s[1], s[2]];
      assert QUOTES == ['\"', '\"', '\"'];
      assert s[..3] == QUOTES ==> [s[0], s[1], s[2]][1] == '\"' && [s[0], s[1], s[2]][2] == '\"';
    }
  }

  /** The first replacement: every backslash doubled. */
  function Doubled(s: string): string {
    Replace(s, "\\", "\\\\")
  }

  lemma DoubledStep(s: string)
    requires s != ""
    ensures Doubled(s) == (if s[0] == '\\' then "\\\\" else [s[0]]) + Doubled(s[1..])
    ensures Doubled(s) != "" && Doubled(s)[0] == s[0]
  {
    assert StartsWith(s, "\\") <==> s[0] == '\\';
  }

  /** Doubling makes no run of three quotes. */
  lemma DoubledQuotes(s: string)
    ensures ThreeQuotes(Doubled(s)) <==> ThreeQuotes(s)
    ensures ThreeQuotes(s) ==> Doubled(s)[3..] == Doubled(s[3..])
  {
    if s != "" && s[0] == '\"' {
      DoubledStep(s);
      if |s| > 1 && s[1] == '\"' {
        DoubledStep(s[1..]);
        if |s| > 2 {
          DoubledStep(s[2..]);
          assert Doubled(s) == [s[0]] + ([s[1]] + Doubled(s[2..]));
        }
      } else if |s| > 1 {
        DoubledStep(s[1..]);
      }
    } else if s != "" {
      DoubledStep(s);
    }
  }

  lemma {:induction false} OnePass(s: string)
    ensures Replace(Doubled(s), QUOTES, "\\\"\\\"\\\"") == Escape(s)
    decreases |s|
  {
    if s != "" {
      var n := if s[0] != '\\' && ThreeQuotes(s) then 3 else 1;
      OnePass(s[n..]);
      OnePassStep(s, n);
    }
  }

  lemma OnePassStep(s: string, n: nat)
    requires s != "" && n == if s[0] != '\\' && ThreeQuotes(s) then 3 else 1
    requires Replace(Doubled(s[n..]), QUOTES, "\\\"\\\"\\\"") == Escape(s[n..])
    ensures Replace(Doubled(s), QUOTES, "\\\"\\\"\\\"") == Escape(s)
  {
    QuotesStart(Doubled(s));
    DoubledStep(s);
    DoubledQuotes(s);
    if s[0] == '\\' {
      var rest := Doubled(s[1..]);
      QuotesStart(['\\'] + rest);
      assert Doubled(s)[1..] == ['\\'] + rest && (['\\'] + rest)[1..] == rest;
    } else if !ThreeQuotes(s) {
      assert Doubled(s)[1..] == Doubled(s[1..]);
    }
  }

  lemma EscapeStart(s: string)
    requires s != ""
    ensures Escape(s) != "" && (Escape(s)[0] == s[0] || Escape(s)[0] == '\\')
  {
  }

  lemma {:induction false} EscapeEnd(s: string)
    ensures EndsInQuote(Escape(s)) <==> EndsInQuote(s)
    decreases |s|
  {
    if s != "" {
      var n := if s[0] != '\\' && ThreeQuotes(s) then 3 else 1;
      EscapeEnd(s[n..]);
      if s[n..] != "" {
        EscapeStart(s[n..]);
        assert s[|s| - 1] == s[n..][|s[n..]| - 1];
      }
    }
  }

  lemma BeforeTwice(a: string, b: string, tail: Option<Literal>)
    ensures Before(a, Before(b, tail)) == Before(a + b, tail)
  {
    if tail.Some? {
      assert a + (b + tail.value.value) == a + b + tail.value.value;
    }
  }

  /** Where no escape is printed, no closing delimiter is either. */
  lemma NoEarlyClose(s: string, t: string)
    requires s != "" && s[0] != '\\' && !ThreeQuotes(s) && (EndsInQuote(s) ==> t != "" && t[0] != '\"')
    ensures !ThreeQuotes(Escape(s) + t)
  {
    if s[0] == '\"' {
      var text := Escape(s) + t;
      assert Escape(s) == [s[0]] + Escape(s[1..]);
      if |s| == 1 {
        assert text[1] == t[0];
      } else if s[1] != '\"' {
        EscapeStart(s[1..]);
        assert text[1] == Escape(s[1..])[0];
      } else {
        assert Escape(s[1..]) == [s[1]] + Escape(s[2..]);
        if |s| == 2 {
          assert text[2] == t[0];
        } else {
          EscapeStart(s[2..]);
          assert text[2] == Escape(s[2..])[0];
        }
      }
    }
  }

  lemma ReadEscaped(c: char, rest: string)
    requires c == '\\' || c == '\"'
    ensures ReadBody(['\\', c] + rest) == Before([c], ReadBody(rest))
  {
    assert (['\\', c] + rest)[2..] == rest;
  }

  lemma ReadPlain(c: char, rest: string)
    requires c != '\\' && !ThreeQuotes([c] + rest)
    ensures ReadBody([c] + rest) == Before([c], ReadBody(rest))
  {
    assert ([c] + rest)[1..] == rest;
  }

  /** A piece of text in front of one that reads as `s` and then `tail`. */
  lemma ReadsOneMore(c: char, text: string, s: string, tail: Option<Literal>)
    requires c != '\\' && !ThreeQuotes([c] + text) && ReadBody(text) == Before(s, tail)
    ensures ReadBody([c] + text) == Before([c] + s, tail)
  {
    ReadPlain(c, text);
    BeforeTwice([c], s, tail);
  }

  lemma ReadsOneEscape(c: char, text: string, s: string, tail: Option<Literal>)
    requires (c == '\\' || c == '\"') && ReadBody(text) == Before(s, tail)
    ensures ReadBody(['\\', c] + text) == Before([c] + s, tail)
  {
    ReadEscaped(c, text);
    BeforeTwice([c], s, tail);
  }

  lemma ReadsThreeEscapes(text: string, s: string, tail: Option<Literal>)
    requires ReadBody(text) == Before(s, tail)
    ensures ReadBody("\\\"\\\"\\\"" + text) == Before(QUOTES + s, tail)
  {
    var one, q := ['\\', '\"'] + text, ['\"'];
    var two := ['\\', '\"'] + one;
    assert "\\\"\\\"\\\"" + text == ['\\', '\"'] + two;
    ReadsOneEscape('\"', text, s, tail);
    ReadsOneEscape('\"', one, q + s, tail);
    ReadsOneEscape('\"', two, q + (q + s), tail);
    assert q + (q + (q + s)) == QUOTES + s;
  }

  /** What a text and its escaped form begin with. */
  lemma EscapeSplits(s: string, t: string)
    requires s != ""
    ensures s[0] == '\\' ==> Escape(s) + t == ['\\', '\\'] + (Escape(s[1..]) + t)
    ensures ThreeQuotes(s) ==> Escape(s) + t == "\\\"\\\"\\\"" + (Escape(s[3..]) + t) && QUOTES + s[3..] == s
    ensures s[0] != '\\' && !ThreeQuotes(s) ==> Escape(s) + t == [s[0]] + (Escape(s[1..]) + t)
    ensures [s[0]] + s[1..] == s
  {
    if s[0] == '\\' {
      AppendAssociates(['\\', '\\'], Escape(s[1..]), t);
    } else if ThreeQuotes(s) {
      AppendAssociates("\\\"\\\"\\\"", Escape(s[3..]), t);
      assert QUOTES + s[3..] == s;
    } else {
      AppendAssociates([s[0]], Escape(s[1..]), t);
    }
  }

  lemma ReadsNothing(t: string)
    ensures ReadBody(Escape("") + t) == Before("", ReadBody(t))
  {
    assert Escape("") + t == t;
    if ReadBody(t).Some? {
      assert "" + ReadBody(t).value.value == ReadBody(t).value.value;
    }
  }

  /** Reading an escaped text gives the text, then what follows it. */
  lemma {:induction false} ReadsBack(s: string, t: string, tail: Option<Literal>)
    requires (EndsInQuote(s) ==> t != "" && t[0] != '\"') && tail == ReadBody(t)
    ensures ReadBody(Escape(s) + t) == Before(s, tail)
    decreases |s|
  {
    if s == "" {
      ReadsNothing(t);
    } else {
      EscapeSplits(s, t);
      if s[0] == '\\' {
        ReadsBack(s[1..], t, tail);
        ReadsOneEscape(s[0], Escape(s[1..]) + t, s[1..], tail);
      } else if ThreeQuotes(s) {
        ReadsBack(s[3..], t, tail);
        ReadsThreeEscapes(Escape(s[3..]) + t, s[3..], tail);
      } else {
        ReadsBack(s[1..], t, tail);
        NoEarlyClose(s, t);
        ReadsOneMore(s[0], Escape(s[1..]) + t, s[1..], tail);
      }
    }
  }

  /** The literal printed for a text: read from any program it stands in, it is
      closed by its last delimiter and no earlier one, and gives the text back,
      plus a newline if that ended in a quote. */
  lemma LiteralReadsBack(s: string, rest: string)
    ensures ReadLiteral(PyStr(s) + rest) == Some(Literal(Embedded(s), rest))
  {
    OnePass(s);
    EscapeEnd(s);
    var close := QUOTES + rest;
    var t := if EndsInQuote(s) then "\n" + close else close;
    assert PyStr(s) + rest == QUOTES + (Escape(s) + t);
    assert (QUOTES + (Escape(s) + t))[3..] == Escape(s) + t;
    assert close[3..] == rest && ThreeQuotes(close);
    assert ReadBody(close) == Some(Literal("", rest));
    ReadsBack(s, t, ReadBody(t));
    if EndsInQuote(s) {
      ReadPlain('\n', close);
      assert s + ("\n" + "") == Embedded(s);
    } else {
      assert s + "" == Embedded(s);
    }
  }

  // ---------------------------------------------------------------------
  // Line ends
  // ---------------------------------------------------------------------

  lemma {:induction false} UniversalHasNoReturn(s: string)
    ensures NoReturn(Universal(s)) && (NoReturn(s) ==> Universal(s) == s)
    decreases |s|
  {
    if s != "" {
      var rest := if s[0] == '\r' && |s| > 1 && s[1] == '\n' then s[2..] else s[1..];
      UniversalHasNoReturn(rest);
    }
  }

  /** The length of the first character or line end. */
  function FirstLength(s: string): nat
    requires s != ""
  {
    if s[0] == '\r' && |s| > 1 && s[1] == '\n' then 2 else 1
  }

  lemma UniversalStep(s: string)
    requires s != ""
    ensures FirstLength(s) <= |s|
    ensures Universal(s) == [if s[0] == '\r' then '\n' else s[0]] + Universal(s[FirstLength(s)..])
  {
  }

  lemma {:induction false} UniversalAppends(a: string, b: string)
    requires b == "" || b[0] != '\n'
    ensures Universal(a + b) == Universal(a) + Universal(b)
    decreases |a|
  {
    if a == "" {
      assert a + b == b;
    } else {
      var n := FirstLength(a);
      UniversalStep(a);
      UniversalStep(a + b);
      assert (a + b)[n..] == a[n..] + b && FirstLength(a + b) == n;
      UniversalAppends(a[n..], b);
      AppendAssociates([if a[0] == '\r' then '\n' else a[0]], Universal(a[n..]), Universal(b));
    }
  }

  lemma UniversalStart(s: string)
    requires s != "" && s[0] != '\r'
    ensures Universal(s) == [s[0]] + Universal(s[1..])
  {
  }

  /** No quote comes or goes with line ends. */
  lemma UniversalQuotes(s: string)
    ensures ThreeQuotes(Universal(s)) <==> ThreeQuotes(s)
    ensures ThreeQuotes(s) ==> Universal(s)[3..] == Universal(s[3..])
  {
    if s != "" && s[0] == '\"' {
      UniversalStart(s);
      if |s| > 1 && s[1] == '\"' {
        UniversalStart(s[1..]);
        assert Universal(s) == [s[0]] + ([s[1]] + Universal(s[2..]));
        if |s| > 2 && s[2] == '\"' {
          UniversalStart(s[2..]);
        }
      }
    }
  }

  lemma BackslashStays(s: string)
    requires s != "" && s[0] == '\\' && Universal(Escape(s[1..])) == Escape(Universal(s[1..]))
    ensures Universal(Escape(s)) == Escape(Universal(s))
  {
    QuotesStayFrom("\\\\", 0, Escape(s[1..]));
    assert "\\\\"[0..] == "\\\\";
    UniversalStep(s);
    var u := Universal(s);
    assert u[0] == '\\' && u[1..] == Universal(s[1..]);
  }

  lemma ThreeQuotesStay(s: string)
    requires ThreeQuotes(s) && Universal(Escape(s[3..])) == Escape(Universal(s[3..]))
    ensures Universal(Escape(s)) == Escape(Universal(s))
  {
    UniversalQuotes(s);
    QuotesStay(Escape(s[3..]));
  }

  lemma OtherStays(s: string)
    requires s != "" && s[0] != '\r' && s[0] != '\\' && !ThreeQuotes(s)
             && Universal(Escape(s[1..])) == Escape(Universal(s[1..]))
    ensures Universal(Escape(s)) == Escape(Universal(s))
  {
    UniversalQuotes(s);
    UniversalStep(s);
    UniversalStep(Escape(s));
    assert Escape(s)[1..] == Escape(s[1..]);
    var u := Universal(s);
    assert u[0] == s[0] && u[1..] == Universal(s[1..]);
  }

  lemma {:induction false} UniversalEscapes(s: string)
    ensures Universal(Escape(s)) == Escape(Universal(s))
    decreases |s|
  {
    if s != "" {
      if s[0] == '\r' {
        ReturnEscapes(s);
        UniversalEscapes(s[FirstLength(s)..]);
      } else if s[0] == '\\' {
        UniversalEscapes(s[1..]);
        BackslashStays(s);
      } else if ThreeQuotes(s) {
        UniversalEscapes(s[3..]);
        ThreeQuotesStay(s);
      } else {
        UniversalEscapes(s[1..]);
        OtherStays(s);
      }
    }
  }

  lemma QuotesStay(rest: string)
    ensures Universal("\\\"\\\"\\\"" + rest) == "\\\"\\\"\\\"" + Universal(rest)
  {
    var q := "\\\"\\\"\\\"";
    QuotesStayFrom(q, 0, rest);
    assert q[0..] == q;
  }

  lemma {:induction false} QuotesStayFrom(q: string, n: nat, rest: string)
    requires n <= |q| && '\r' !in q
    ensures Universal(q[n..] + rest) == q[n..] + Universal(rest)
    decreases |q| - n
  {
    if n == |q| {
      assert q[n..] + rest == rest;
    } else {
      QuotesStayFrom(q, n + 1, rest);
      assert (q[n..] + rest)[0] == q[n] && (q[n..] + rest)[1..] == q[n + 1..] + rest;
    }
  }

  /** A line end is printed as it is. */
  lemma ReturnEscapes(s: string)
    requires s != "" && s[0] == '\r'
    ensures var rest := s[FirstLength(s)..];
            Universal(Escape(s)) == "\n" + Universal(Escape(rest))
                && Escape(Universal(s)) == "\n" + Escape(Universal(rest))
  {
    assert Escape(s) == ['\r'] + Escape(s[1..]);
    if |s| > 1 && s[1] == '\n' {
      assert Escape(s[1..]) == ['\n'] + Escape(s[2..]);
      assert Escape(s)[2..] == Escape(s[2..]);
    } else if |s| > 1 {
      EscapeStart(s[1..]);
      assert Escape(s)[1] == Escape(s[1..])[0] && Escape(s)[1..] == Escape(s[1..]);
    }
    var u := Universal(s);
    assert u[0] == '\n' && Escape(u) == ['\n'] + Escape(u[1..]);
  }

  lemma {:induction false} UniversalEnd(s: string)
    ensures EndsInQuote(Universal(s)) <==> EndsInQuote(s)
    decreases |s|
  {
    if s != "" {
      var n := if s[0] == '\r' && |s| > 1 && s[1] == '\n' then 2 else 1;
      UniversalEnd(s[n..]);
      assert Universal(s) == [if s[0] == '\r' then '\n' else s[0]] + Universal(s[n..]);
      if s[n..] != "" {
        assert s[|s| - 1] == s[n..][|s[n..]| - 1];
        assert Universal(s[n..]) != "";
      }
    }
  }

  /** A printed literal, in pieces. */
  lemma LiteralIs(s: string)
    ensures PyStr(s) == QUOTES + (Escape(s) + if EndsInQuote(s) then "\n" + QUOTES else QUOTES)
  {
    OnePass(s);
    EscapeEnd(s);
  }

  lemma UniversalOfLiteral(s: string)
    ensures Universal(PyStr(s)) == PyStr(Universal(s))
  {
    LiteralIs(s);
    LiteralIs(Universal(s));
    UniversalEnd(s);
    UniversalEscapes(s);
    EscapeEnd(s);
    var tail := if EndsInQuote(s) then "\n" + QUOTES else QUOTES;
    UniversalHasNoReturn(tail);
    if EndsInQuote(s) {
      NewlineAppends(Escape(s), QUOTES);
    } else {
      UniversalAppends(Escape(s), tail);
    }
    assert Universal(Escape(s) + tail) == Escape(Universal(s)) + tail;
    QuotesStayFrom(QUOTES, 0, Escape(s) + tail);
    assert QUOTES[0..] == QUOTES;
  }

  lemma FirstLengthOfMore(a: string, t: string)
    requires a != "" && (t == "" || t[0] != '\n' || a[|a| - 1] != '\r')
    ensures var n := FirstLength(a);
            n <= |a| && FirstLength(a + t) == n && (a + t)[n..] == a[n..] + t && (a + t)[0] == a[0]
  {
  }

  lemma FirstOfMore(a: string, t: string)
    requires a != "" && (t == "" || t[0] != '\n' || a[|a| - 1] != '\r')
    ensures var n := FirstLength(a);
            var first := [if a[0] == '\r' then '\n' else a[0]];
            && n <= |a| && Universal(a) == first + Universal(a[n..])
            && Universal(a + t) == first + Universal(a[n..] + t)
  {
    FirstLengthOfMore(a, t);
    UniversalStep(a);
    UniversalStep(a + t);
  }

  /** A newline behind a quote is a line end of its own. */
  lemma {:induction false} NewlineAppends(a: string, b: string)
    requires EndsInQuote(a) && NoReturn(b)
    ensures Universal(a + ("\n" + b)) == Universal(a) + ("\n" + b)
    decreases |a|
  {
    var n, t := FirstLength(a), "\n" + b;
    FirstOfMore(a, t);
    if a[n..] == "" {
      UniversalHasNoReturn(t);
      assert a[n..] + t == t;
    } else {
      assert a[n..][|a[n..]| - 1] == a[|a| - 1];
      NewlineAppends(a[n..], b);
    }
    AppendAssociates([if a[0] == '\r' then '\n' else a[0]], Universal(a[n..]), t);
  }

  lemma {:induction false} NullEscapes(s: string)
    ensures '\0' in Escape(s) <==> '\0' in s
    decreases |s|
  {
    if s != "" {
      var n := if s[0] != '\\' && ThreeQuotes(s) then 3 else 1;
      NullEscapes(s[n..]);
      assert s == s[..n] + s[n..];
    }
  }

  lemma NullPrinted(s: string)
    ensures '\0' in PyStr(s) <==> '\0' in s
  {
    LiteralIs(s);
    NullEscapes(s);
  }

  /** Read from a source file, the literal is refused exactly when the text has a
      null character; otherwise it gives the text with its line ends made
      newlines. */
  lemma FileReads(s: string)
    ensures ReadFile(PyStr(s)) == if '\0' in s then None else Some(Literal(Embedded(Universal(s)), ""))
  {
    NullPrinted(s);
    UniversalOfLiteral(s);
    LiteralReadsBack(Universal(s), "");
    assert PyStr(Universal(s)) + "" == PyStr(Universal(s));
  }

  /** A text is embedded verbatim exactly when it has neither a carriage return
      nor a null character. */
  lemma FileReadsBackIff(s: string)
    ensures ReadFile(PyStr(s)) == Some(Literal(Embedded(s), "")) <==> NoReturn(s) && '\0' !in s
  {
    FileReads(s);
    UniversalHasNoReturn(s);
    if !NoReturn(s) {
      assert '\r' in Embedded(s) && '\r' !in Embedded(Universal(s));
    }
  }

  lemma ReturnAlone(s: string)
    requires s == ['\r']
    ensures Universal(s) == ['\n']
  {
    assert s[1..] == "";
  }

  /** A carriage return comes back as a newline. */
  lemma ReturnIsLost(s: string)
    requires s == ['\r']
    ensures ReadFile(PyStr(s)) == Some(Literal(['\n'], ""))
  {
    FileReads(s);
    ReturnAlone(s);
  }

  /** A null character makes the file unreadable. */
  lemma NullIsRefused()
    ensures ReadFile(PyStr("a\0b")) == None
  {
    assert "a\0b"[1] == '\0';
    FileReads("a\0b");
  }

  /** The added newline is the one the file is written with anyway. */
  lemma SameFile(s: string)
    ensures HostState.WithNewline(Embedded(s)) == HostState.WithNewline(s)
  {
  }
}
