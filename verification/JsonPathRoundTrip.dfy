/** Printing a JSONPath and parsing it back: the printed form means the path it came from exactly when every segment has one selector, no filter. */
module JsonPathRoundTrip {
  import opened Common
  import opened JsonPath

  /** What the proof needs of Unicode: letters are alphanumeric, nothing is both alphanumeric and white space, and the punctuation of paths is neither. */
  ghost predicate Sane(c: Platform) {
    && (forall ch :: c.alphabetic(ch) ==> c.alphanumeric(ch))
    && (forall ch :: IsDigit(ch) ==> c.alphanumeric(ch))
    && (forall ch :: c.alphanumeric(ch) ==> !c.whitespace(ch))
    && (forall ch :: IsPunctuation(ch) ==> !c.alphanumeric(ch) && !c.whitespace(ch))
  }

  predicate IsPunctuation(ch: char) {
    ch == '.' || ch == '*' || ch == '[' || ch == ']' || ch == '\'' || ch == ':' || ch == '-' || ch == '_' || ch == ',' || ch == '?' || ch == '('
  }

  // ---------------------------------------------------------------- tokens

  lemma {:induction false} SpanExact(p: char -> bool, a: string, b: string)
    requires (forall i :: 0 <= i < |a| ==> p(a[i])) && (b != "" ==> !p(b[0]))
    ensures Span(p, a + b) == |a|
  {
    if a == "" {
      assert a + b == b;
    } else {
      assert (a + b)[0] == a[0] && (a + b)[1..] == a[1..] + b;
      SpanExact(p, a[1..], b);
    }
  }

  lemma SplitAt(a: string, b: string)
    ensures (a + b)[..|a|] == a && (a + b)[|a|..] == b
  {
  }

  lemma IdentifierParses(c: Platform, name: string, rest: string)
    requires name != "" && (forall i :: 0 <= i < |name| ==> IsWord(c, name[i])) && (rest != "" ==> !IsWord(c, rest[0]))
    ensures ParseIdentifier(c, name + rest) == Parsed(rest, Ok(name))
  {
    SpanExact(Words(c), name, rest);
    SplitAt(name, rest);
  }

  lemma {:induction false} DecimalValue(n: nat)
    ensures DigitsValue(Decimal(n)) == n
  {
    if n >= 10 {
      DecimalValue(n / 10);
      assert Decimal(n)[..|Decimal(n)| - 1] == Decimal(n / 10);
    } else {
      assert Decimal(n)[..0] == "";
    }
  }

  lemma DigitsParse(m: nat, rest: string)
    requires rest != "" ==> !IsDigit(rest[0])
    ensures var t := Decimal(m) + rest; var n := Span(Digits(), t); t[..n] == Decimal(m) && t[n..] == rest && IsDigit(t[0])
  {
    hide Decimal;
    SpanExact(Digits(), Decimal(m), rest);
    SplitAt(Decimal(m), rest);
  }

  lemma NumberParses(n: ISize, rest: string)
    requires rest != "" ==> !IsDigit(rest[0])
    ensures ParseNumber(ToString(n) + rest) == Parsed(rest, Ok(n))
  {
    hide Decimal, DigitsValue, Span;
    var m: nat := if n < 0 then 0 - n else n + 0;
    var t := Decimal(m) + rest;
    DecimalValue(m);
    DigitsParse(m, rest);
    if n < 0 {
      assert ToString(n) + rest == "-" + t;
      assert ("-" + t)[1..] == t && ("-" + t)[0] == '-';
    } else {
      assert ToString(n) + rest == t;
    }
  }

  lemma NumberStart(n: ISize)
    ensures ToString(n) != "" && (IsDigit(ToString(n)[0]) || ToString(n)[0] == '-')
  {
  }

  lemma GivenNumberParses(c: Platform, t: string, n: ISize, rest: string)
    requires Sane(c) && t != "" && (IsDigit(t[0]) || t[0] == '-') && ParseNumber(t) == Parsed(rest, Ok(n))
    ensures ParseOptionalNumber(c, t) == Parsed(rest, Ok(Some(n)))
  {
    hide ParseNumber;
    assert !c.whitespace(t[0]);
  }

  lemma OptionalNumberParses(c: Platform, n: Option<ISize>, rest: string)
    requires Sane(c) && rest != "" && (rest[0] == ':' || rest[0] == ']')
    ensures ParseOptionalNumber(c, OptionalToString(n) + rest) == Parsed(rest, Ok(n))
  {
    if n.Some? {
      hide ParseNumber, ParseOptionalNumber, ToString;
      NumberStart(n.value);
      var s := ToString(n.value) + rest;
      assert s[0] == ToString(n.value)[0];
      NumberParses(n.value, rest);
      GivenNumberParses(c, s, n.value, rest);
    } else {
      NoNumberParses(c, rest);
      assert "" + rest == rest;
    }
  }

  lemma NoNumberParses(c: Platform, rest: string)
    requires Sane(c) && rest != "" && (rest[0] == ':' || rest[0] == ']')
    ensures ParseOptionalNumber(c, rest) == Parsed(rest, Ok(None))
  {
    hide ParseNumber;
    assert !c.whitespace(rest[0]);
  }

  lemma QuotedStep(ch: char, more: string)
    ensures ParseQuoted('\'', EscapedChar(ch) + more) == Pushed(ch, ParseQuoted('\'', more))
  {
    var head := EscapedChar(ch);
    var s := head + more;
    if |head| == 2 {
      assert s[0] == '\\' && s[1..] == [head[1]] + more && s[2..] == more;
      assert s[1..][0] == head[1] == ch;
    } else {
      assert s[0] == ch && s[1..] == more;
    }
  }

  lemma {:induction false} QuotedParses(s: string, rest: string)
    ensures ParseQuoted('\'', Escaped(s) + ("'" + rest)) == Parsed(rest, Ok(s))
  {
    if s == "" {
      assert "" + ("'" + rest) == "'" + rest && ("'" + rest)[1..] == rest;
    } else {
      QuotedParses(s[1..], rest);
      ConcatAssoc(EscapedChar(s[0]), Escaped(s[1..]), "'" + rest);
      QuotedStep(s[0], Escaped(s[1..]) + ("'" + rest));
      assert s == [s[0]] + s[1..];
    }
  }

  // ---------------------------------------------------------------- selectors

  ghost predicate Printable(s: Selector) {
    !s.FilterBy?
  }

  /** What a selector in brackets looks like inside them. */
  ghost function Inside(c: Platform, s: Selector): string
    requires s.Name? || s.Index? || s.Slice?
  {
    match s
    case Name(name) => "'" + Escaped(name) + "'"
    case Index(i) => ToString(i)
    case Slice(start, end, step) => SliceToString(start, end, step)
  }

  lemma SliceEndParses(c: Platform, from: Option<ISize>, to: Option<ISize>, step: Option<ISize>, close: string)
    requires Sane(c) && Starts(close, ']')
    ensures ParseSliceEnd(c, from, OptionalToString(to) + ((if step.Some? then ":" + ToString(step.value) else "") + close))
            == Parsed(close, Ok(Slice(from, to, step)))
  {
    hide ParseOptionalNumber, OptionalToString, ToString, ParseNumber;
    if step.Some? {
      var n := ToString(step.value) + close;
      assert ":" + ToString(step.value) + close == ":" + n && (":" + n)[1..] == n;
      OptionalNumberParses(c, to, ":" + n);
      NumberParses(step.value, close);
    } else {
      assert "" + close == close;
      OptionalNumberParses(c, to, close);
    }
  }

  lemma SliceParses(c: Platform, s: Selector, rest: string)
    requires Sane(c) && s.Slice?
    ensures ParseIndexOrSlice(c, Inside(c, s) + ("]" + rest)) == Parsed("]" + rest, Ok(s))
  {
    hide ParseOptionalNumber, OptionalToString, ToString, ParseSliceEnd;
    var close := "]" + rest;
    var mid := OptionalToString(s.end) + ((if s.step.Some? then ":" + ToString(s.step.value) else "") + close);
    assert Inside(c, s) + close == OptionalToString(s.start) + (":" + mid);
    assert (":" + mid)[1..] == mid;
    OptionalNumberParses(c, s.start, ":" + mid);
    SliceEndParses(c, s.start, s.end, s.step, close);
  }

  lemma IndexParses(c: Platform, i: ISize, rest: string)
    requires Sane(c)
    ensures ParseIndexOrSlice(c, ToString(i) + ("]" + rest)) == Parsed("]" + rest, Ok(Index(i)))
  {
    OptionalNumberParses(c, Some(i), "]" + rest);
    assert OptionalToString(Some(i)) == ToString(i);
  }

  lemma SliceStart(s: Selector)
    requires s.Slice?
    ensures var t := SliceToString(s.start, s.end, s.step); t != "" && (t[0] == ':' || t[0] == '-' || IsDigit(t[0]))
  {
    if s.start.Some? { NumberStart(s.start.value); }
  }

  lemma NameParses(c: Platform, name: string, rest: string)
    ensures var r := ParseQuoted('\'', ("'" + Escaped(name) + "'" + ("]" + rest))[1..]); r == Parsed("]" + rest, Ok(name))
  {
    var t := Escaped(name) + ("'" + ("]" + rest));
    assert "'" + Escaped(name) + "'" + ("]" + rest) == "'" + t && ("'" + t)[1..] == t;
    QuotedParses(name, "]" + rest);
  }

  lemma InsideParses(c: Platform, s: Selector, rest: string)
    requires Sane(c) && (s.Name? || s.Index? || s.Slice?)
    ensures Inside(c, s) != "" && !c.whitespace(Inside(c, s)[0]) && Inside(c, s)[0] != ']'
    ensures ParseBracketSelector(c, Inside(c, s) + ("]" + rest)) == Parsed("]" + rest, Ok(s))
  {
    hide ToString, OptionalToString, ParseIndexOrSlice, ParseQuoted;
    var t := Inside(c, s) + ("]" + rest);
    match s
    case Name(name) =>
      assert Inside(c, s)[0] == '\'';
      assert t[0] == '\'';
      NameParses(c, name, rest);
    case Index(i) =>
      NumberStart(i);
      assert t[0] == ToString(i)[0];
      IndexParses(c, i, rest);
    case Slice(_, _, _) =>
      SliceStart(s);
      assert t[0] == Inside(c, s)[0];
      SliceParses(c, s, rest);
  }

  lemma BracketParses(c: Platform, s: Selector, rest: string)
    requires Sane(c) && (s.Name? || s.Index? || s.Slice?)
    ensures ParseBracketSelectors(c, Bracketed(Inside(c, s)) + rest) == Parsed(rest, Ok([s]))
  {
    hide ParseBracketSelector, Inside;
    var body := Inside(c, s) + ("]" + rest);
    InsideParses(c, s, rest);
    assert Bracketed(Inside(c, s)) + rest == "[" + body;
    assert ("[" + body)[1..] == body;
    assert body[0] == Inside(c, s)[0];
    assert SkipWhitespace(c, body) == body;
    assert ("]" + rest)[1..] == rest;
    assert SkipWhitespace(c, "]" + rest) == "]" + rest;
    assert ParseBracketList(c, body) == Parsed(rest, Ok([s]));
  }

  // ---------------------------------------------------------------- segments

  ghost predicate Single(s: PathSegment) {
    |s.selectors| == 1 && Printable(s.selectors[0])
  }

  ghost predicate Boundary(rest: string) {
    rest != "" ==> rest[0] == '.' || rest[0] == '['
  }

  lemma SegmentIsBracketed(c: Platform, s: Selector)
    requires Printable(s) && !s.Wildcard? && !(s.Name? && IsIdentifier(c, s.name))
    ensures SelectorToSegment(c, s) == SelectorToTail(c, s) == Bracketed(Inside(c, s))
  {
  }

  lemma ChildParses(c: Platform, s: Selector, rest: string)
    requires Sane(c) && Printable(s) && Boundary(rest)
    ensures var t := SelectorToSegment(c, s) + rest;
            t != "" && (t[0] == '.' || t[0] == '[') && ParseSegment(c, t) == Parsed(rest, Ok(PathSegment([s], false)))
  {
    hide ParseBracketSelectors, ParseIdentifier, Inside, Escaped, ToString, SliceToString;
    var t := SelectorToSegment(c, s) + rest;
    if s.Wildcard? {
      assert t[1..] == "*" + rest && ("*" + rest)[1..] == rest;
    } else if s.Name? && IsIdentifier(c, s.name) {
      assert t[1..] == s.name + rest && (s.name + rest)[0] == s.name[0];
      IdentifierParses(c, s.name, rest);
    } else {
      SegmentIsBracketed(c, s);
      BracketParses(c, s, rest);
    }
  }

  lemma DescendantParses(c: Platform, s: Selector, rest: string)
    requires Sane(c) && Printable(s) && Boundary(rest)
    ensures var t := SelectorToTail(c, s) + rest; t != "" && !c.whitespace(t[0]) && ParseRecursiveSelector(c, t) == Parsed(rest, Ok(s))
  {
    var t := SelectorToTail(c, s) + rest;
    if s.Wildcard? {
      assert t[1..] == rest;
    } else if s.Name? && IsIdentifier(c, s.name) {
      assert t[0] == s.name[0];
      IdentifierParses(c, s.name, rest);
    } else {
      assert SelectorToTail(c, s) == Bracketed(Inside(c, s));
      assert t[0] == '[';
      BracketParses(c, s, rest);
    }
  }

  lemma TwoDots(c: Platform, tail: string)
    requires Sane(c) && tail != "" && !c.whitespace(tail[0])
    ensures var r, one := ParseSegment(c, ".." + tail), ParseRecursiveSelector(c, tail);
            r.rest == one.rest && r.result == (match one.result case Ok(x) => Ok(PathSegment([x], true)) case Err(e) => Err(e))
  {
    hide ParseRecursiveSelector, ParseIdentifier, ParseBracketSelectors;
    var t := ".." + tail;
    assert t[1..] == "." + tail && ("." + tail)[1..] == tail;
    assert SkipWhitespace(c, t[1..]) == t[1..];
    assert SkipWhitespace(c, tail) == tail;
  }

  lemma SegmentParses(c: Platform, s: PathSegment, rest: string)
    requires Sane(c) && Single(s) && Boundary(rest)
    ensures var t := SegmentToString(c, s) + rest; t != "" && (t[0] == '.' || t[0] == '[') && ParseSegment(c, t) == Parsed(rest, Ok(s))
  {
    hide ParseRecursiveSelector, SelectorToTail, SelectorToSegment, ParseSegment;
    assert s.selectors == [s.selectors[0]];
    if s.recursive {
      var tail := SelectorToTail(c, s.selectors[0]) + rest;
      DescendantParses(c, s.selectors[0], rest);
      TwoDots(c, tail);
      assert SegmentToString(c, s) + rest == ".." + tail;
    } else {
      ChildParses(c, s.selectors[0], rest);
    }
  }

  /** Every printed segment starts with a dot or a bracket. */
  lemma SegmentStart(c: Platform, s: PathSegment)
    ensures SegmentToString(c, s) != "" && (SegmentToString(c, s)[0] == '.' || SegmentToString(c, s)[0] == '[')
  {
  }

  lemma SegmentsStart(c: Platform, path: seq<PathSegment>)
    ensures Boundary(SegmentsToString(c, path))
  {
    if path != [] { SegmentStart(c, path[0]); }
  }

  // ---------------------------------------------------------------- segments that do not come back

  /** The filter parser takes no dot for an expression. */
  ghost predicate NoDotFilter(c: Platform) {
    forall s :: Starts(s, '.') ==> c.filter(s).1.Err?
  }

  lemma ListFails(c: Platform, s: string)
    requires Sane(c) && s != "" && (s[0] == '.' || s[0] == '[' || (s[0] == '?' && NoDotFilter(c) && Starts(s[1..], '(') && Starts(s[2..], '.')))
    ensures ParseBracketList(c, s).result.Err?
  {
    assert SkipWhitespace(c, s) == s;
    if s[0] == '?' { FilterFails(c, s); }
  }

  lemma FilterFails(c: Platform, s: string)
    requires Sane(c) && NoDotFilter(c) && Starts(s, '?') && Starts(s[1..], '(') && Starts(s[2..], '.')
    ensures ParseBracketSelector(c, s).result.Err?
  {
    assert SkipWhitespace(c, s[1..]) == s[1..];
    assert s[1..][1..] == s[2..];
  }

  lemma ListStart(c: Platform, ss: seq<Selector>)
    requires ss != []
    ensures JoinSelectors(c, ss) != "" && (JoinSelectors(c, ss)[0] == '.' || JoinSelectors(c, ss)[0] == '[')
  {
  }

  ghost function Body(c: Platform, s: PathSegment): string {
    if |s.selectors| == 1 then "?(...)" else JoinSelectors(c, s.selectors)
  }

  lemma PrintedSegment(c: Platform, s: PathSegment)
    requires !Single(s)
    ensures SegmentToString(c, s) == if s.recursive then ".." + Bracketed(Body(c, s)) else Bracketed(Body(c, s))
    ensures var body := Body(c, s); body == "" || body[0] == '.' || body[0] == '[' || body == "?(...)"
  {
    BodyStart(c, s);
  }

  /** Any other segment, printed, stops the parser whatever comes behind it. */
  lemma SegmentFails(c: Platform, s: PathSegment, rest: string)
    requires Sane(c) && NoDotFilter(c) && !Single(s)
    ensures var t := SegmentToString(c, s) + rest; t != "" && !c.whitespace(t[0]) && ParseSegment(c, t).result.Err?
  {
    var body := Body(c, s);
    PrintedSegment(c, s);
    BracketedFails(c, body, rest);
    if s.recursive { ConcatAssoc("..", Bracketed(body), rest); }
  }

  lemma BracketedFails(c: Platform, body: string, rest: string)
    requires Sane(c) && NoDotFilter(c) && (body == "" || body[0] == '.' || body[0] == '[' || body == "?(...)")
    ensures ParseSegment(c, Bracketed(body) + rest).result.Err?
    ensures ParseSegment(c, ".." + (Bracketed(body) + rest)).result.Err?
  {
    hide ParseBracketSelectors, ParseRecursiveSelector;
    var list := Bracketed(body) + rest;
    assert list == "[" + (body + ("]" + rest)) && list[1..] == body + ("]" + rest);
    BracketFails(c, body, rest, list);
    DescendantFails(c, list);
    TwoDots(c, list);
  }

  lemma DescendantFails(c: Platform, list: string)
    requires Sane(c) && Starts(list, '[') && ParseBracketSelectors(c, list).result.Err?
    ensures ParseRecursiveSelector(c, list).result.Err?
  {
    assert SkipWhitespace(c, list) == list;
  }

  lemma BodyStart(c: Platform, s: PathSegment)
    requires !Single(s)
    ensures |s.selectors| == 1 ==> SelectorToSegment(c, s.selectors[0]) == SelectorToTail(c, s.selectors[0]) == Bracketed("?(...)")
    ensures s.selectors == [] ==> JoinSelectors(c, s.selectors) == ""
    ensures |s.selectors| > 1 ==> JoinSelectors(c, s.selectors) != "" && (JoinSelectors(c, s.selectors)[0] == '.' || JoinSelectors(c, s.selectors)[0] == '[')
  {
    if |s.selectors| > 1 { ListStart(c, s.selectors); }
  }

  lemma BracketFails(c: Platform, body: string, rest: string, list: string)
    requires Sane(c) && NoDotFilter(c) && list != "" && list[0] == '[' && list[1..] == body + ("]" + rest)
    requires body == "" || body[0] == '.' || body[0] == '[' || body == "?(...)"
    ensures ParseBracketSelectors(c, list).result.Err?
  {
    var inner := list[1..];
    if body == "" {
      assert inner == "]" + rest;
      assert SkipWhitespace(c, inner) == inner;
    } else {
      assert inner[0] == body[0];
      if body[0] == '?' { assert inner[1..][0] == '(' && inner[2..][0] == '.'; }
      ListFails(c, inner);
    }
  }

  // ---------------------------------------------------------------- paths

  lemma {:induction false} SegmentsRoundTrip(c: Platform, path: seq<PathSegment>)
    requires Sane(c) && NoDotFilter(c)
    ensures var r := ParseSegments(c, SegmentsToString(c, path));
            if forall i :: 0 <= i < |path| ==> Single(path[i]) then r == Parsed("", Ok(path)) else r.result.Err?
  {
    hide ParseSegment, SegmentToString;
    if path != [] {
      var rest := SegmentsToString(c, path[1..]);
      SegmentsRoundTrip(c, path[1..]);
      if Single(path[0]) {
        SegmentsStart(c, path[1..]);
        SegmentParses(c, path[0], rest);
        assert path == [path[0]] + path[1..];
        if forall i :: 0 <= i < |path| ==> Single(path[i]) {
        } else {
          var i :| 0 <= i < |path| && !Single(path[i]);
          assert path[1..][i - 1] == path[i];
        }
      } else {
        SegmentFails(c, path[0], rest);
      }
    }
  }

  /**
   The printed form of a path parses to that path if and only if each of its segments, recursive or
   not, has exactly one selector and that is no filter; otherwise it does not parse at all.
   */
  lemma RoundTrip(c: Platform, path: seq<PathSegment>)
    requires Sane(c) && NoDotFilter(c)
    ensures ParsePath(c, PathToString(c, path)).result == Ok(path) <==> forall i :: 0 <= i < |path| ==> Single(path[i])
    ensures ParsePath(c, PathToString(c, path)).result.Ok? ==> ParsePath(c, PathToString(c, path)) == Parsed("", Ok(path))
  {
    assert PathToString(c, path)[1..] == SegmentsToString(c, path);
    SegmentsRoundTrip(c, path);
  }

  /** Different paths of single selectors print differently. */
  lemma PrintingIsInjective(c: Platform, a: seq<PathSegment>, b: seq<PathSegment>)
    requires Sane(c) && NoDotFilter(c)
    requires (forall i :: 0 <= i < |a| ==> Single(a[i])) && PathToString(c, a) == PathToString(c, b)
    ensures a == b
  {
    RoundTrip(c, a);
    RoundTrip(c, b);
  }
}
