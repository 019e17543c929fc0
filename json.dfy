/** The JSON encoding of a list of strings, as written into the `acme/certificate` annotation of a
    secret and read back from the annotations of services and secrets. Only the part of JSON
    that a string array needs is modelled: whitespace, string literals with the simple escapes,
    commas and brackets. */
module Json {
  import opened Wrappers

  // ---------------------------------------------------------------- encoding

  /** The characters that must be escaped inside a JSON string literal. */
  predicate NeedsEscape(c: char) {
    c == '"' || c == '\\'
  }

  function EscapeChar(c: char): string {
    if NeedsEscape(c) then ['\\', c] else [c]
  }

  /** The body of a string literal for `s`. */
  function Escape(s: string): string {
    if s == [] then [] else EscapeChar(s[0]) + Escape(s[1..])
  }

  function QuoteString(s: string): string {
    "\"" + Escape(s) + "\""
  }

  /** The comma-separated string literals of `ds`. */
  function JoinElements(ds: seq<string>): string {
    if ds == [] then ""
    else if |ds| == 1 then QuoteString(ds[0])
    else QuoteString(ds[0]) + "," + JoinElements(ds[1..])
  }

  /** `gson.toJson(list)` for a list of strings. */
  function ToJson(ds: seq<string>): string {
    "[" + JoinElements(ds) + "]"
  }

  // ----------------------------------------------------------------- parsing

  predicate IsWhitespace(c: char) {
    c == ' ' || c == '\t' || c == '\n' || c == '\r'
  }

  predicate AllWhitespace(s: string) {
    forall i :: 0 <= i < |s| ==> IsWhitespace(s[i])
  }

  /** The input after its leading whitespace. */
  function SkipWhitespace(s: string): (r: string)
    ensures |r| <= |s| && r == s[|s| - |r|..]
    ensures r != [] ==> !IsWhitespace(r[0])
  {
    if s != [] && IsWhitespace(s[0]) then SkipWhitespace(s[1..]) else s
  }

  /** The character denoted by the escape sequence `\c`, if `c` is a simple escape. */
  function Unescape(c: char): Option<char> {
    match c
    case '"' => Some('"')
    case '\\' => Some('\\')
    case '/' => Some('/')
    case 'n' => Some('\n')
    case 't' => Some('\t')
    case 'r' => Some('\r')
    case 'b' => Some('\U{8}')
    case 'f' => Some('\U{C}')
    case _ => None
  }

  /** Parses the rest of a string literal whose opening quote is already consumed, giving its
      value and the input after the closing quote. */
  function ParseStringBody(s: string): (r: Option<(string, string)>)
    ensures r.Some? ==> |r.value.1| < |s|
  {
    if s == [] then None
    else if s[0] == '"' then Some(("", s[1..]))
    else if s[0] == '\\' then
      if |s| < 2 then None
      else
        match Unescape(s[1])
        case None => None
        case Some(c) =>
          match ParseStringBody(s[2..])
          case None => None
          case Some(p) => Some(([c] + p.0, p.1))
    else
      match ParseStringBody(s[1..])
      case None => None
      case Some(p) => Some(([s[0]] + p.0, p.1))
  }

  /** Parses one or more elements, each a string literal followed by `,` or the closing `]`;
      `s` starts after the whitespace before the first element. */
  function ParseElements(s: string): Option<seq<string>>
    decreases |s|, 1
  {
    if s == [] || s[0] != '"' then None
    else
      match ParseStringBody(s[1..])
      case None => None
      case Some(p) => AfterElement(p.0, SkipWhitespace(p.1))
  }

  /** Continues after the element `x`; `rest` starts after the whitespace that follows it. */
  function AfterElement(x: string, rest: string): Option<seq<string>>
    decreases |rest|, 0
  {
    if rest == [] then None
    else if rest[0] == ']' then
      if AllWhitespace(rest[1..]) then Some([x]) else None
    else if rest[0] == ',' then
      match ParseElements(SkipWhitespace(rest[1..]))
      case None => None
      case Some(vs) => Some([x] + vs)
    else None
  }

  /** `gson.fromJson(s, List<String>)`: `None` where Gson throws. */
  function FromJson(s: string): Option<seq<string>> {
    var t := SkipWhitespace(s);
    if t == [] || t[0] != '[' then None else ArrayBody(SkipWhitespace(t[1..]))
  }

  /** The contents of an array after `[` and whitespace: empty, or one or more elements. */
  function ArrayBody(u: string): Option<seq<string>> {
    if u != [] && u[0] == ']' then
      if AllWhitespace(u[1..]) then Some([]) else None
    else ParseElements(u)
  }

  // ------------------------------------------------------------- round trip

  /** The escaped body of `x`, its closing quote and `tail` parse back to `x` and `tail`. */
  lemma {:induction false} ParseEscaped(x: string, tail: string)
    ensures ParseStringBody(Escape(x) + "\"" + tail) == Some((x, tail))
  {
    if x == [] {
      assert Escape(x) + "\"" + tail == "\"" + tail;
    } else {
      ParseEscaped(x[1..], tail);
      ParseEscapedStep(x, tail, Escape(x[1..]) + "\"" + tail);
    }
  }

  lemma {:induction false} ParseEscapedStep(x: string, tail: string, after: string)
    requires x != [] && after == Escape(x[1..]) + "\"" + tail
    requires ParseStringBody(after) == Some((x[1..], tail))
    ensures ParseStringBody(Escape(x) + "\"" + tail) == Some((x, tail))
  {
    var s := Escape(x) + "\"" + tail;
    EscapeSplit(x, tail, after, s);
    if NeedsEscape(x[0]) {
      ParseEscapedChar(x[0], after, s, x[1..], tail, x);
    } else {
      ParsePlainChar(x[0], after, s, x[1..], tail, x);
    }
  }

  lemma {:induction false} EscapeSplit(x: string, tail: string, after: string, s: string)
    requires x != [] && after == Escape(x[1..]) + "\"" + tail && s == Escape(x) + "\"" + tail
    ensures s == EscapeChar(x[0]) + after
  {
    assert Escape(x) == EscapeChar(x[0]) + Escape(x[1..]);
  }

  lemma {:induction false} ParseEscapedChar(c: char, after: string, s: string, v: string, tail: string, whole: string)
    requires NeedsEscape(c) && s == EscapeChar(c) + after && ParseStringBody(after) == Some((v, tail))
    requires whole != [] && whole[0] == c && whole[1..] == v
    ensures ParseStringBody(s) == Some((whole, tail))
  {
    assert s[2..] == after && Unescape(s[1]) == Some(c);
    assert whole == [c] + v;
  }

  lemma {:induction false} ParsePlainChar(c: char, after: string, s: string, v: string, tail: string, whole: string)
    requires !NeedsEscape(c) && s == EscapeChar(c) + after && ParseStringBody(after) == Some((v, tail))
    requires whole != [] && whole[0] == c && whole[1..] == v
    ensures ParseStringBody(s) == Some((whole, tail))
  {
    assert s[1..] == after;
    assert whole == [c] + v;
  }

  /** A string literal followed by `r` starts with a quote and parses back to its value. */
  lemma {:induction false} LiteralThen(x: string, r: string)
    ensures (QuoteString(x) + r)[0] == '"'
    ensures ParseStringBody((QuoteString(x) + r)[1..]) == Some((x, r))
  {
    assert (QuoteString(x) + r)[1..] == Escape(x) + "\"" + r;
    ParseEscaped(x, r);
  }

  /** How `ParseElements` reads a literal followed by `r`. */
  lemma {:induction false} ElementThen(x: string, r: string)
    ensures ParseElements(QuoteString(x) + r) == AfterElement(x, SkipWhitespace(r))
  {
    LiteralThen(x, r);
  }

  lemma {:induction false} JoinedStartsWithQuote(ds: seq<string>, r: string)
    requires ds != []
    ensures (JoinElements(ds) + r)[0] == '"'
  {
    if |ds| == 1 {
      assert JoinElements(ds) + r == QuoteString(ds[0]) + r;
    } else {
      assert JoinElements(ds) + r == QuoteString(ds[0]) + ("," + JoinElements(ds[1..]) + r);
    }
  }

  lemma {:induction false} ParseLastElement(x: string, tail: string)
    requires AllWhitespace(tail)
    ensures ParseElements(QuoteString(x) + ("]" + tail)) == Some([x])
  {
    var r := "]" + tail;
    assert ParseElements(QuoteString(x) + r) == AfterElement(x, r) by {
      ElementThen(x, r);
      assert SkipWhitespace(r) == r;
    }
    assert AfterElement(x, r) == Some([x]) by {
      assert r[0] == ']' && r[1..] == tail;
    }
  }

  lemma {:induction false} ParseInnerElement(x: string, more: string, vs: seq<string>, s: string, all: seq<string>)
    requires more != [] && more[0] == '"'
    requires ParseElements(more) == Some(vs)
    requires s == QuoteString(x) + ("," + more) && all == [x] + vs
    ensures ParseElements(s) == Some(all)
  {
    ElementBeforeSeparator(x, "," + more, s);
    AfterComma(x, "," + more, more);
  }

  /** A literal directly followed by a separator. */
  lemma {:induction false} ElementBeforeSeparator(x: string, r: string, s: string)
    requires r != [] && !IsWhitespace(r[0]) && s == QuoteString(x) + r
    ensures ParseElements(s) == AfterElement(x, r)
  {
    ElementThen(x, r);
  }

  /** After an element, a comma followed by more elements. */
  lemma {:induction false} AfterComma(x: string, rest: string, more: string)
    requires rest != [] && rest[0] == ',' && rest[1..] == more
    requires more != [] && more[0] == '"' && ParseElements(more).Some?
    ensures AfterElement(x, rest) == Some([x] + ParseElements(more).value)
  {
    assert SkipWhitespace(more) == more;
  }

  lemma {:induction false} JoinUnfold(ds: seq<string>, r: string)
    requires |ds| >= 2
    ensures JoinElements(ds) + r == QuoteString(ds[0]) + ("," + (JoinElements(ds[1..]) + r))
  {
  }

  /** One more element in front of a parsed list. */
  lemma {:induction false} ParseJoinedStep(ds: seq<string>, tail: string)
    requires |ds| >= 2
    requires ParseElements(JoinElements(ds[1..]) + ("]" + tail)) == Some(ds[1..])
    ensures ParseElements(JoinElements(ds) + ("]" + tail)) == Some(ds)
  {
    var more := JoinElements(ds[1..]) + ("]" + tail);
    var s := JoinElements(ds) + ("]" + tail);
    assert s == QuoteString(ds[0]) + ("," + more) by {
      JoinUnfold(ds, "]" + tail);
    }
    assert more[0] == '"' by {
      JoinedStartsWithQuote(ds[1..], "]" + tail);
    }
    assert ds == [ds[0]] + ds[1..];
    ParseInnerElement(ds[0], more, ds[1..], s, ds);
  }

  lemma {:induction false} ParseSingle(ds: seq<string>, tail: string)
    requires |ds| == 1 && AllWhitespace(tail)
    ensures ParseElements(JoinElements(ds) + ("]" + tail)) == Some(ds)
  {
    assert JoinElements(ds) + ("]" + tail) == QuoteString(ds[0]) + ("]" + tail);
    ParseLastElement(ds[0], tail);
    assert [ds[0]] == ds;
  }

  lemma {:induction false} ParseJoined(ds: seq<string>, tail: string)
    requires ds != [] && AllWhitespace(tail)
    ensures ParseElements(JoinElements(ds) + ("]" + tail)) == Some(ds)
  {
    if |ds| == 1 {
      ParseSingle(ds, tail);
    } else {
      ParseJoined(ds[1..], tail);
      ParseJoinedStep(ds, tail);
    }
  }

  /** The array body of a non-empty list. */
  lemma {:induction false} NonEmptyBody(ds: seq<string>, t: string)
    requires ds != [] && t == JoinElements(ds) + ("]" + "")
    ensures ArrayBody(SkipWhitespace(t)) == Some(ds)
  {
    assert t[0] == '"' by {
      JoinedStartsWithQuote(ds, "]" + "");
    }
    assert SkipWhitespace(t) == t;
    ParseJoined(ds, "");
  }

  /** The array body of an empty list. */
  lemma {:induction false} EmptyBody(t: string)
    requires t == "]"
    ensures ArrayBody(SkipWhitespace(t)) == Some([])
  {
    assert SkipWhitespace(t) == t by {
      assert !IsWhitespace(t[0]);
    }
    assert AllWhitespace(t[1..]) by {
      assert |t[1..]| == 0;
    }
  }

  /** Reading back what `ToJson` wrote gives the same list. */
  lemma {:induction false} RoundTrip(ds: seq<string>)
    ensures FromJson(ToJson(ds)) == Some(ds)
  {
    var s := ToJson(ds);
    OpeningBracket(ds, s);
    if ds == [] {
      assert s[1..] == "]";
      EmptyBody(s[1..]);
    } else {
      NonEmptyBody(ds, s[1..]);
    }
  }

  lemma {:induction false} OpeningBracket(ds: seq<string>, s: string)
    requires s == ToJson(ds)
    ensures s != [] && SkipWhitespace(s) == s && s[0] == '['
    ensures s[1..] == JoinElements(ds) + ("]" + "")
    ensures FromJson(s) == ArrayBody(SkipWhitespace(s[1..]))
  {
    assert s[0] == '[';
  }
}
