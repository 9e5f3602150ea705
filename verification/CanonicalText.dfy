/** The key-order-independent text of a schema (`canonical`, src/protocol.ts):
    two values have the same text exactly when they are the same JSON value. */
module CanonicalText {
  import opened Common

  /** A value as the program holds it: the keys of an object have an order. A
      number is the text JSON gives it. */
  datatype Doc =
    | DocNull
    | DocBool(b: bool)
    | DocNum(token: string)
    | DocStr(s: string)
    | DocArr(items: seq<Doc>)
    | DocObj(keys: seq<string>, fields: map<string, Doc>)

  /** The same without the order. */
  datatype Shape =
    | Null
    | Bool(b: bool)
    | Num(token: string)
    | Str(s: string)
    | Arr(items: seq<Shape>)
    | Obj(fields: map<string, Shape>)

  function Norm(d: Doc): Shape
    decreases d
  {
    match d
    case DocNull => Null
    case DocBool(b) => Bool(b)
    case DocNum(token) => Num(token)
    case DocStr(s) => Str(s)
    case DocArr(items) => Arr(seq(|items|, i requires 0 <= i < |items| => Norm(items[i])))
    case DocObj(_, fields) => Obj(map k | k in fields :: Norm(fields[k]))
  }

  predicate NumberChar(c: char) {
    '0' <= c <= '9' || c == '-' || c == '+' || c == '.' || c == 'e' || c == 'E'
  }

  predicate NumberToken(s: string) {
    s != "" && ('0' <= s[0] <= '9' || s[0] == '-') && forall i | 0 <= i < |s| :: NumberChar(s[i])
  }

  /** Numbers are number tokens; the keys of an object are listed once each. */
  predicate Valid(d: Doc)
    decreases d
  {
    match d
    case DocNum(token) => NumberToken(token)
    case DocArr(items) => forall i | 0 <= i < |items| :: Valid(items[i])
    case DocObj(keys, fields) =>
      && (forall k | k in keys :: k in fields)
      && (forall k | k in fields :: k in keys)
      && (forall i, j | 0 <= i < j < |keys| :: keys[i] != keys[j])
      && (forall k | k in fields :: Valid(fields[k]))
    case _ => true
  }

  // ---------------------------------------------------------------------
  // Strings: section 7 of RFC 8259
  // ---------------------------------------------------------------------

  const HEX := "0123456789abcdef"

  /** A character is a Unicode scalar value here: the lone surrogates a program
      string can hold, which are printed as escapes, are not part of the model. */
  function Escape(c: char): string {
    if c == '\"' then "\\\""
    else if c == '\\' then "\\\\"
    else if c == '\n' then "\\n"
    else if c == '\r' then "\\r"
    else if c == '\t' then "\\t"
    else if c as int == 8 then "\\b"
    else if c as int == 12 then "\\f"
    else if (c as int) < 32 then "\\u00" + [HEX[c as int / 16]] + [HEX[c as int % 16]]
    else [c]
  }

  function EscapeAll(s: string): string {
    if s == "" then "" else Escape(s[0]) + EscapeAll(s[1..])
  }

  function Quote(s: string): string {
    "\"" + EscapeAll(s) + "\""
  }

  /** No escape is the beginning of another, and none begins with a quote. */
  lemma EscapeReadsOnce(c: char, d: char, x: string, y: string)
    requires Escape(c) + x == Escape(d) + y
    ensures c == d && x == y
  {
    var e, f := Escape(c), Escape(d);
    assert (e + x)[0] == e[0] && (f + y)[0] == f[0];
    if e[0] == '\\' {
      assert (e + x)[1] == e[1] && (f + y)[1] == f[1];
      if e[1] == 'u' {
        assert (e + x)[4] == e[4] && (f + y)[4] == f[4];
        assert (e + x)[5] == e[5] && (f + y)[5] == f[5];
        HexDiffers(c as int / 16, d as int / 16);
        HexDiffers(c as int % 16, d as int % 16);
      }
    }
    assert |e| == |f|;
    assert x == (e + x)[|e|..] == (f + y)[|f|..] == y;
  }

  lemma HexDiffers(m: nat, n: nat)
    requires m < 16 && n < 16 && HEX[m] == HEX[n]
    ensures m == n
  {
  }

  lemma EscapeStart(c: char)
    ensures Escape(c) != "" && Escape(c)[0] != '\"'
  {
  }

  /** The rest of a quoted string, its closing quote and what follows. */
  function Closing(s: string, x: string): string {
    EscapeAll(s) + ("\"" + x)
  }

  lemma ClosingStep(s: string, x: string)
    ensures s == "" ==> Closing(s, x) == "\"" + x
    ensures s != "" ==> Closing(s, x) == Escape(s[0]) + Closing(s[1..], x) && Closing(s, x)[0] != '\"'
  {
    if s != "" {
      EscapeStart(s[0]);
      assert Closing(s, x) == Escape(s[0]) + Closing(s[1..], x);
      assert Closing(s, x)[0] == Escape(s[0])[0];
    }
  }

  /** A quoted string ends at its own closing quote. */
  lemma {:induction false} QuotedReadsOnce(s: string, t: string, x: string, y: string)
    requires Closing(s, x) == Closing(t, y)
    ensures s == t && x == y
  {
    ClosingStep(s, x);
    ClosingStep(t, y);
    if s == "" || t == "" {
      assert ("\"" + x)[0] == ("\"" + y)[0] == '\"';
      assert ("\"" + x)[1..] == x && ("\"" + y)[1..] == y;
    } else {
      EscapeReadsOnce(s[0], t[0], Closing(s[1..], x), Closing(t[1..], y));
      QuotedReadsOnce(s[1..], t[1..], x, y);
    }
  }

  /** What follows one and the same character. */
  lemma Strip(c: char, d: char, x: string, y: string)
    requires [c] + x == [d] + y
    ensures c == d && x == y
  {
    assert ([c] + x)[0] == ([d] + y)[0];
    assert ([c] + x)[1..] == x && ([d] + y)[1..] == y;
  }

  lemma QuoteIsClosing(s: string, x: string)
    ensures Quote(s) + x == ['\"'] + Closing(s, x)
  {
  }

  lemma QuoteReadsOnce(s: string, t: string, x: string, y: string)
    requires Quote(s) + x == Quote(t) + y
    ensures s == t && x == y
  {
    QuoteIsClosing(s, x);
    QuoteIsClosing(t, y);
    Strip('\"', '\"', Closing(s, x), Closing(t, y));
    QuotedReadsOnce(s, t, x, y);
  }

  // ---------------------------------------------------------------------
  // Sorting keys
  // ---------------------------------------------------------------------

  /** By code point, where the program sorts by code unit, which orders characters
      beyond the basic plane differently; any order will do here. */
  predicate Sorted(s: seq<string>) {
    forall i, j | 0 <= i < j < |s| :: TextBelow(s[i], s[j])
  }

  function Insert(k: string, s: seq<string>): seq<string> {
    if s == [] || TextBelow(k, s[0]) then [k] + s else [s[0]] + Insert(k, s[1..])
  }

  function Sort(s: seq<string>): seq<string> {
    if s == [] then [] else Insert(s[0], Sort(s[1..]))
  }

  lemma {:induction false} InsertIsSorted(k: string, s: seq<string>)
    requires Sorted(s) && k !in s
    ensures Sorted(Insert(k, s)) && forall x :: x in Insert(k, s) <==> x == k || x in s
  {
    if s == [] {
    } else if TextBelow(k, s[0]) {
      forall i | 0 < i < |s| ensures TextBelow(k, s[i]) {
        TextBelowIsTransitive(k, s[0], s[i]);
      }
    } else {
      TextBelowIsTotal(k, s[0]);
      InsertIsSorted(k, s[1..]);
      forall x | x in Insert(k, s[1..]) ensures TextBelow(s[0], x) {
        if x != k {
          var i :| 0 <= i < |s[1..]| && s[1..][i] == x;
          assert s[i + 1] == x;
        }
      }
    }
  }

  lemma {:induction false} SortIsSorted(s: seq<string>)
    requires forall i, j | 0 <= i < j < |s| :: s[i] != s[j]
    ensures Sorted(Sort(s)) && forall x :: x in Sort(s) <==> x in s
  {
    if s != [] {
      SortIsSorted(s[1..]);
      InsertIsSorted(s[0], Sort(s[1..]));
    }
  }

  /** Sorting forgets the order the keys came in. */
  lemma {:induction false} SortedIsUnique(s: seq<string>, t: seq<string>)
    requires Sorted(s) && Sorted(t) && forall x :: x in s <==> x in t
    ensures s == t
  {
    SameEmptiness(s, t);
    if s != [] {
      assert s[0] in s && t[0] in t;
      HeadsAgree(s, t);
      forall x ensures x in s[1..] <==> x in t[1..] {
        TailHas(s, x);
        TailHas(t, x);
      }
      SortedIsUnique(s[1..], t[1..]);
    }
  }

  lemma SameEmptiness(s: seq<string>, t: seq<string>)
    requires forall x :: x in s <==> x in t
    ensures s == [] <==> t == []
  {
    if s != [] {
      assert s[0] in t;
    }
    if t != [] {
      assert t[0] in s;
    }
  }

  lemma TailHas(s: seq<string>, x: string)
    requires s != [] && Sorted(s)
    ensures x in s[1..] <==> x in s && x != s[0]
  {
    TextBelowIsTotal(s[0], s[0]);
    if x in s[1..] {
      var i :| 0 <= i < |s[1..]| && s[1..][i] == x;
      assert TextBelow(s[0], s[i + 1]);
    }
  }

  lemma HeadsAgree(s: seq<string>, t: seq<string>)
    requires s != [] && t != [] && Sorted(s) && Sorted(t) && s[0] in t && t[0] in s
    ensures s[0] == t[0]
  {
    var i :| 0 <= i < |t| && t[i] == s[0];
    var j :| 0 <= j < |s| && s[j] == t[0];
    if i > 0 && j > 0 {
      assert TextBelow(t[0], t[i]) && TextBelow(s[0], s[j]);
      TextBelowIsTotal(s[0], t[0]);
    }
  }

  // ---------------------------------------------------------------------
  // The text
  // ---------------------------------------------------------------------

  /** `join(",")`. */
  function Join(texts: seq<string>): string {
    if texts == [] then ""
    else if |texts| == 1 then texts[0]
    else texts[0] + "," + Join(texts[1..])
  }

  function Canonical(d: Doc): string
    requires Valid(d)
    decreases d
  {
    match d
    case DocNull => "null"
    case DocBool(b) => if b then "true" else "false"
    case DocNum(token) => token
    case DocStr(s) => Quote(s)
    case DocArr(items) => "[" + Join(seq(|items|, i requires 0 <= i < |items| => Canonical(items[i]))) + "]"
    case DocObj(keys, fields) =>
      "{" + Join(PairTexts(Sort(keys), map k | k in fields :: Canonical(fields[k]))) + "}"
  }

  function PairText(k: string, text: string): string {
    Quote(k) + ([':'] + text)
  }

  /** The members of an object under `keys`. */
  function PairTexts(keys: seq<string>, texts: map<string, string>): seq<string> {
    seq(|keys|, i requires 0 <= i < |keys| => if keys[i] in texts then PairText(keys[i], texts[keys[i]]) else "")
  }

  function ItemTexts(d: Doc): seq<string>
    requires d.DocArr? && Valid(d)
  {
    seq(|d.items|, i requires 0 <= i < |d.items| => Canonical(d.items[i]))
  }

  function FieldTexts(d: Doc): map<string, string>
    requires d.DocObj? && Valid(d)
  {
    map k | k in d.fields :: Canonical(d.fields[k])
  }

  // ---------------------------------------------------------------------
  // Same value, same text
  // ---------------------------------------------------------------------

  lemma {:induction false} SameText(a: Doc, b: Doc)
    requires Valid(a) && Valid(b) && Norm(a) == Norm(b)
    ensures Canonical(a) == Canonical(b)
    decreases a, 1
  {
    if a.DocArr? {
      SameItems(a, b);
    } else if a.DocObj? {
      SameFields(a, b);
    }
  }

  lemma {:induction false} SameItems(a: Doc, b: Doc)
    requires a.DocArr? && b.DocArr? && Valid(a) && Valid(b) && Norm(a) == Norm(b)
    ensures Canonical(a) == Canonical(b)
    decreases a, 0
  {
    assert |Norm(a).items| == |Norm(b).items|;
    forall i | 0 <= i < |a.items| ensures Canonical(a.items[i]) == Canonical(b.items[i]) {
      assert Norm(a).items[i] == Norm(b).items[i];
      SameText(a.items[i], b.items[i]);
    }
    assert ItemTexts(a) == ItemTexts(b);
  }

  lemma {:induction false} SameFields(a: Doc, b: Doc)
    requires a.DocObj? && b.DocObj? && Valid(a) && Valid(b) && Norm(a) == Norm(b)
    ensures Canonical(a) == Canonical(b)
    decreases a, 0
  {
    SameNormFields(a, b);
    SameKeys(a, b);
    forall k | k in a.fields ensures Canonical(a.fields[k]) == Canonical(b.fields[k]) {
      SameText(a.fields[k], b.fields[k]);
    }
    SameFieldTexts(a, b);
  }

  lemma SameNormFields(a: Doc, b: Doc)
    requires a.DocObj? && b.DocObj? && Norm(a) == Norm(b)
    ensures a.fields.Keys == b.fields.Keys && forall k | k in a.fields :: Norm(a.fields[k]) == Norm(b.fields[k])
  {
    assert a.fields.Keys == Norm(a).fields.Keys == Norm(b).fields.Keys == b.fields.Keys;
    forall k | k in a.fields ensures Norm(a.fields[k]) == Norm(b.fields[k]) {
      assert Norm(a).fields[k] == Norm(b).fields[k];
    }
  }

  lemma SameFieldTexts(a: Doc, b: Doc)
    requires a.DocObj? && b.DocObj? && Valid(a) && Valid(b) && a.fields.Keys == b.fields.Keys
    requires forall k | k in a.fields :: Canonical(a.fields[k]) == Canonical(b.fields[k])
    ensures FieldTexts(a) == FieldTexts(b)
  {
  }

  lemma SameKeys(a: Doc, b: Doc)
    requires a.DocObj? && b.DocObj? && Valid(a) && Valid(b) && a.fields.Keys == b.fields.Keys
    ensures Sort(a.keys) == Sort(b.keys)
  {
    SortIsSorted(a.keys);
    SortIsSorted(b.keys);
    forall x ensures x in Sort(a.keys) <==> x in Sort(b.keys) {
      assert x in a.keys <==> x in a.fields.Keys;
      assert x in b.keys <==> x in b.fields.Keys;
    }
    SortedIsUnique(Sort(a.keys), Sort(b.keys));
  }

  // ---------------------------------------------------------------------
  // Same text, same value
  // ---------------------------------------------------------------------

  predicate EndChar(c: char) {
    c == ',' || c == ']' || c == '}'
  }

  /** What may follow a value inside a text. */
  predicate Ends(x: string) {
    x == "" || EndChar(x[0])
  }

  lemma NothingBefore(x: string)
    ensures "" + x == x
  {
  }

  lemma FirstApart(s: string, x: string)
    requires s != ""
    ensures s + x == [s[0]] + (s[1..] + x)
  {
  }

  /** A number looks like no end. */
  lemma NumberIsNoEnd(s: string, x: string)
    requires forall i | 0 <= i < |s| :: NumberChar(s[i])
    ensures s != "" ==> !Ends(s + x)
  {
    if s != "" {
      assert NumberChar(s[0]) && (s + x)[0] == s[0];
    }
  }

  lemma {:induction false} NumberReadsOnce(s: string, t: string, x: string, y: string)
    requires (forall i | 0 <= i < |s| :: NumberChar(s[i])) && (forall i | 0 <= i < |t| :: NumberChar(t[i]))
    requires Ends(x) && Ends(y) && s + x == t + y
    ensures s == t && x == y
  {
    NothingBefore(x);
    NothingBefore(y);
    NumberIsNoEnd(s, x);
    NumberIsNoEnd(t, y);
    if s != "" && t != "" {
      FirstApart(s, x);
      FirstApart(t, y);
      Strip(s[0], t[0], s[1..] + x, t[1..] + y);
      NumberReadsOnce(s[1..], t[1..], x, y);
    }
  }

  /** The texts can be told apart where they end, and none looks like an end. */
  ghost predicate Readable(ts: seq<string>, us: seq<string>) {
    && (forall i | 0 <= i < |ts| :: ts[i] != "" && !EndChar(ts[i][0]))
    && (forall i | 0 <= i < |us| :: us[i] != "" && !EndChar(us[i][0]))
    && (forall i, j | 0 <= i < |ts| && 0 <= j < |us| :: ReadsOnce(ts[i], us[j]))
  }

  ghost predicate ReadsOnce(t: string, u: string) {
    forall x, y | Ends(x) && Ends(y) && t + x == u + y :: t == u && x == y
  }

  /** What follows the first of some texts. */
  function Rest(ts: seq<string>, x: string): string
    requires ts != []
  {
    if |ts| == 1 then x else [','] + (Join(ts[1..]) + x)
  }

  lemma JoinOfMore(ts: seq<string>)
    requires |ts| > 1
    ensures Join(ts) == (ts[0] + ",") + Join(ts[1..])
  {
  }

  lemma JoinStep(ts: seq<string>, x: string)
    requires ts != []
    ensures Join(ts) + x == ts[0] + Rest(ts, x)
  {
    if |ts| > 1 {
      JoinOfMore(ts);
      AppendAssociates(ts[0] + ",", Join(ts[1..]), x);
      AppendAssociates(ts[0], ",", Join(ts[1..]) + x);
    }
  }

  lemma JoinStarts(ts: seq<string>, x: string)
    requires forall i | 0 <= i < |ts| :: ts[i] != "" && !EndChar(ts[i][0])
    requires x != "" && EndChar(x[0])
    ensures Join(ts) + x != "" && (EndChar((Join(ts) + x)[0]) <==> ts == [])
  {
    if ts != [] {
      JoinStep(ts, x);
      assert (ts[0] + Rest(ts, x))[0] == ts[0][0];
    } else {
      assert Join(ts) + x == x;
    }
  }

  /** A list of readable texts, closed by a bracket, is the text of one list. */
  lemma {:induction false} JoinReadsOnce(ts: seq<string>, us: seq<string>, close: char, x: string, y: string)
    requires Readable(ts, us) && (close == ']' || close == '}')
    requires Join(ts) + ([close] + x) == Join(us) + ([close] + y)
    ensures ts == us && x == y
  {
    JoinStarts(ts, [close] + x);
    JoinStarts(us, [close] + y);
    if ts == [] {
      assert Join(ts) + ([close] + x) == [close] + x && Join(us) + ([close] + y) == [close] + y;
      Strip(close, close, x, y);
    } else {
      FirstReadsOnce(ts, us, close, x, y);
      RestReadsOnce(ts, us, close, x, y);
      if |ts| > 1 {
        JoinReadsOnce(ts[1..], us[1..], close, x, y);
      }
      assert ts == [ts[0]] + ts[1..] && us == [us[0]] + us[1..];
    }
  }

  lemma FirstReadsOnce(ts: seq<string>, us: seq<string>, close: char, x: string, y: string)
    requires ts != [] && us != [] && (close == ']' || close == '}') && ReadsOnce(ts[0], us[0])
    requires Join(ts) + ([close] + x) == Join(us) + ([close] + y)
    ensures ts[0] == us[0] && Rest(ts, [close] + x) == Rest(us, [close] + y)
  {
    JoinStep(ts, [close] + x);
    JoinStep(us, [close] + y);
    RestEnds(ts, [close] + x);
    RestEnds(us, [close] + y);
  }

  lemma RestEnds(ts: seq<string>, x: string)
    requires ts != [] && Ends(x)
    ensures Ends(Rest(ts, x))
  {
  }

  lemma RestReadsOnce(ts: seq<string>, us: seq<string>, close: char, x: string, y: string)
    requires ts != [] && us != [] && (close == ']' || close == '}')
    requires Rest(ts, [close] + x) == Rest(us, [close] + y)
    ensures |ts| == 1 <==> |us| == 1
    ensures if |ts| == 1 then x == y else Join(ts[1..]) + ([close] + x) == Join(us[1..]) + ([close] + y)
  {
    assert Rest(ts, [close] + x)[0] == if |ts| == 1 then close else ',';
    assert Rest(us, [close] + y)[0] == if |us| == 1 then close else ',';
    if |ts| == 1 {
      Strip(close, close, x, y);
    } else {
      Strip(',', ',', Join(ts[1..]) + ([close] + x), Join(us[1..]) + ([close] + y));
    }
  }

  /** How the text of a value begins. */
  predicate Begins(d: Doc, c: char) {
    match d
    case DocNull => c == 'n'
    case DocBool(b) => c == if b then 't' else 'f'
    case DocNum(_) => '0' <= c <= '9' || c == '-'
    case DocStr(_) => c == '\"'
    case DocArr(_) => c == '['
    case DocObj(_, _) => c == '{'
  }

  lemma TextBegins(d: Doc)
    requires Valid(d)
    ensures Canonical(d) != "" && Begins(d, Canonical(d)[0]) && !EndChar(Canonical(d)[0])
  {
  }

  lemma SameKind(a: Doc, b: Doc, x: string, y: string)
    requires Valid(a) && Valid(b) && Canonical(a) + x == Canonical(b) + y
    ensures exists c :: Begins(a, c) && Begins(b, c)
  {
    TextBegins(a);
    TextBegins(b);
    assert (Canonical(a) + x)[0] == Canonical(a)[0] && (Canonical(b) + y)[0] == Canonical(b)[0];
  }

  /** Unique readability: a text, followed by something that may follow one, is
      the text of one value. */
  lemma {:induction false} ReadOnce(a: Doc, b: Doc, x: string, y: string)
    requires Valid(a) && Valid(b) && Ends(x) && Ends(y) && Canonical(a) + x == Canonical(b) + y
    ensures Norm(a) == Norm(b) && Canonical(a) == Canonical(b) && x == y
    decreases a, 4
  {
    SameKind(a, b, x, y);
    match a
    case DocNum(_) => NumberReadsOnce(a.token, b.token, x, y);
    case DocStr(_) => QuoteReadsOnce(a.s, b.s, x, y);
    case DocArr(_) => ArrayReadsOnce(a, b, x, y);
    case DocObj(_, _) => ObjectReadsOnce(a, b, x, y);
    case _ => SameLiteral(a, b, x, y);
  }

  lemma SameLiteral(a: Doc, b: Doc, x: string, y: string)
    requires a == b && (a.DocNull? || a.DocBool?) && Canonical(a) + x == Canonical(b) + y
    ensures x == y
  {
    assert x == (Canonical(a) + x)[|Canonical(a)|..] == (Canonical(b) + y)[|Canonical(b)|..] == y;
  }

  lemma {:induction false} ValuesReadOnce(a: Doc, b: Doc)
    requires Valid(a) && Valid(b)
    ensures ReadsOnce(Canonical(a), Canonical(b))
    decreases a, 5
  {
    forall x, y | Ends(x) && Ends(y) && Canonical(a) + x == Canonical(b) + y
        ensures Canonical(a) == Canonical(b) && x == y {
      ReadOnce(a, b, x, y);
    }
  }

  lemma {:induction false} SameTextSameValue(a: Doc, b: Doc)
    requires Valid(a) && Valid(b) && Canonical(a) == Canonical(b)
    ensures Norm(a) == Norm(b)
    decreases a, 5
  {
    ReadOnce(a, b, "", "");
  }

  lemma {:induction false} ArrayReadsOnce(a: Doc, b: Doc, x: string, y: string)
    requires a.DocArr? && b.DocArr? && Valid(a) && Valid(b) && Canonical(a) + x == Canonical(b) + y
    ensures Norm(a) == Norm(b) && Canonical(a) == Canonical(b) && x == y
    decreases a, 0
  {
    var ts, us := ItemTexts(a), ItemTexts(b);
    ArrayFrom(a, x);
    ArrayFrom(b, y);
    Strip('[', '[', Join(ts) + ([']'] + x), Join(us) + ([']'] + y));
    forall i, j | 0 <= i < |ts| && 0 <= j < |us| ensures ReadsOnce(ts[i], us[j]) {
      ValuesReadOnce(a.items[i], b.items[j]);
    }
    JoinReadsOnce(ts, us, ']', x, y);
    forall i | 0 <= i < |a.items| ensures Norm(a.items[i]) == Norm(b.items[i]) {
      assert ts[i] == us[i];
      SameTextSameValue(a.items[i], b.items[i]);
    }
  }

  lemma ArrayFrom(d: Doc, x: string)
    requires d.DocArr? && Valid(d)
    ensures Canonical(d) == "[" + Join(ItemTexts(d)) + "]"
    ensures Canonical(d) + x == ['['] + (Join(ItemTexts(d)) + ([']'] + x))
    ensures forall i | 0 <= i < |d.items| :: ItemTexts(d)[i] != "" && !EndChar(ItemTexts(d)[i][0])
  {
    forall i | 0 <= i < |d.items| ensures ItemTexts(d)[i] != "" && !EndChar(ItemTexts(d)[i][0]) {
      TextBegins(d.items[i]);
    }
    Bracket("[", Join(ItemTexts(d)), "]", x);
  }

  lemma Bracket(open: string, body: string, close: string, x: string)
    ensures (open + body + close) + x == open + (body + (close + x))
  {
  }

  lemma SortedKeys(d: Doc)
    requires d.DocObj? && Valid(d)
    ensures forall k :: k in Sort(d.keys) <==> k in d.fields
  {
    SortIsSorted(d.keys);
  }

  function Members(d: Doc): seq<string>
    requires d.DocObj? && Valid(d)
  {
    PairTexts(Sort(d.keys), FieldTexts(d))
  }

  lemma ObjectFrom(d: Doc, x: string)
    requires d.DocObj? && Valid(d)
    ensures Canonical(d) == "{" + Join(Members(d)) + "}"
    ensures Canonical(d) + x == ['{'] + (Join(Members(d)) + (['}'] + x))
    ensures forall i | 0 <= i < |Members(d)| :: Members(d)[i] != "" && !EndChar(Members(d)[i][0])
  {
    SortedKeys(d);
    forall i | 0 <= i < |Members(d)| ensures Members(d)[i] != "" && !EndChar(Members(d)[i][0]) {
      assert Sort(d.keys)[i] in d.fields;
      assert Members(d)[i] == PairText(Sort(d.keys)[i], FieldTexts(d)[Sort(d.keys)[i]]);
    }
    Bracket("{", Join(Members(d)), "}", x);
  }

  lemma PairFrom(k: string, t: string, x: string)
    ensures PairText(k, t) + x == Quote(k) + ([':'] + (t + x))
  {
  }

  lemma PairReadOnce(k: string, l: string, t: string, u: string, x: string, y: string)
    requires ReadsOnce(t, u) && Ends(x) && Ends(y) && PairText(k, t) + x == PairText(l, u) + y
    ensures k == l && t == u && x == y
  {
    PairFrom(k, t, x);
    PairFrom(l, u, y);
    QuoteReadsOnce(k, l, [':'] + (t + x), [':'] + (u + y));
    Strip(':', ':', t + x, u + y);
  }

  lemma PairsReadOnce(k: string, l: string, t: string, u: string)
    requires ReadsOnce(t, u)
    ensures ReadsOnce(PairText(k, t), PairText(l, u))
    ensures PairText(k, t) == PairText(l, u) ==> k == l && t == u
  {
    forall x, y | Ends(x) && Ends(y) && PairText(k, t) + x == PairText(l, u) + y
      ensures PairText(k, t) == PairText(l, u) && x == y
    {
      PairReadOnce(k, l, t, u, x, y);
    }
    if PairText(k, t) == PairText(l, u) {
      PairReadOnce(k, l, t, u, "", "");
    }
  }

  lemma {:induction false} MembersReadOnce(a: Doc, b: Doc, i: nat, j: nat)
    requires a.DocObj? && b.DocObj? && Valid(a) && Valid(b) && i < |Sort(a.keys)| && j < |Sort(b.keys)|
    ensures ReadsOnce(Members(a)[i], Members(b)[j])
    ensures Members(a)[i] == Members(b)[j] ==>
              var k := Sort(a.keys)[i];
              k == Sort(b.keys)[j] && k in a.fields && k in b.fields && Norm(a.fields[k]) == Norm(b.fields[k])
    decreases a, 0
  {
    SortedKeys(a);
    SortedKeys(b);
    var k, l := Sort(a.keys)[i], Sort(b.keys)[j];
    assert k in a.fields && l in b.fields;
    ValuesReadOnce(a.fields[k], b.fields[l]);
    PairsReadOnce(k, l, Canonical(a.fields[k]), Canonical(b.fields[l]));
    if Members(a)[i] == Members(b)[j] {
      SameTextSameValue(a.fields[k], b.fields[l]);
    }
  }

  lemma {:induction false} ObjectReadsOnce(a: Doc, b: Doc, x: string, y: string)
    requires a.DocObj? && b.DocObj? && Valid(a) && Valid(b) && Canonical(a) + x == Canonical(b) + y
    ensures Norm(a) == Norm(b) && Canonical(a) == Canonical(b) && x == y
    decreases a, 3
  {
    ObjectFrom(a, x);
    ObjectFrom(b, y);
    var ts, us := Members(a), Members(b);
    Strip('{', '{', Join(ts) + (['}'] + x), Join(us) + (['}'] + y));
    forall i, j | 0 <= i < |ts| && 0 <= j < |us| ensures ReadsOnce(ts[i], us[j]) {
      MembersReadOnce(a, b, i, j);
    }
    JoinReadsOnce(ts, us, '}', x, y);
    SameMembersSameFields(a, b);
  }

  lemma SameFieldsSameNorm(a: Doc, b: Doc)
    requires a.DocObj? && b.DocObj? && a.fields.Keys == b.fields.Keys
    requires forall k | k in a.fields :: Norm(a.fields[k]) == Norm(b.fields[k])
    ensures Norm(a) == Norm(b)
  {
    assert Norm(a).fields == Norm(b).fields;
  }

  lemma MembersAreKeys(d: Doc)
    requires d.DocObj? && Valid(d)
    ensures |Members(d)| == |Sort(d.keys)| && forall k :: k in d.fields.Keys <==> k in Sort(d.keys)
  {
    SortedKeys(d);
  }

  lemma {:induction false} SameMembersSameFields(a: Doc, b: Doc)
    requires a.DocObj? && b.DocObj? && Valid(a) && Valid(b) && Members(a) == Members(b)
    ensures Norm(a) == Norm(b)
    decreases a, 2
  {
    var ks, ls := Sort(a.keys), Sort(b.keys);
    MembersAreKeys(a);
    MembersAreKeys(b);
    forall i | 0 <= i < |ks| ensures ks[i] == ls[i] {
      MembersReadOnce(a, b, i, i);
    }
    assert ks == ls;
    forall k | k in a.fields ensures k in b.fields && Norm(a.fields[k]) == Norm(b.fields[k]) {
      var i :| 0 <= i < |ks| && ks[i] == k;
      MembersReadOnce(a, b, i, i);
    }
    SameFieldsSameNorm(a, b);
  }

  /** Canonical text is faithful. */
  lemma SameTextIff(a: Doc, b: Doc)
    requires Valid(a) && Valid(b)
    ensures Canonical(a) == Canonical(b) <==> Norm(a) == Norm(b)
  {
    if Norm(a) == Norm(b) {
      SameText(a, b);
    }
    if Canonical(a) == Canonical(b) {
      ReadOnce(a, b, "", "");
    }
  }
}
