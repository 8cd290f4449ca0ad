/** The cursor parser of crates/json-joy-json-path/src/parser.rs and the string-building printer of util.rs, shown to compute what module JsonPath says. */
module JsonPathParser {
  import opened Common
  import opened JsonPath

  ghost predicate Parses<T>(rest: string, result: Result<T, ParseError>, spec: Parsed<T>) {
    && rest == spec.rest && result.Ok? == spec.result.Ok?
    && (result.Ok? ==> result.value == spec.result.value)
    && (result.Err? ==> result.error == spec.result.error)
  }

  class Parser {
    const input: string
    var pos: nat

    ghost predicate Valid()
      reads this
    {
      pos <= |input|
    }

    ghost function Rest(): string
      requires Valid()
      reads this
    {
      input[pos..]
    }

    constructor (input: string)
      ensures Valid() && Rest() == input
    {
      this.input := input;
      pos := 0;
    }

    function Peek(): (r: Option<char>)
      requires Valid()
      reads this
      ensures r == if Rest() == "" then None else Some(Rest()[0])
    {
      if pos < |input| then Some(input[pos]) else None
    }

    predicate AtEnd()
      requires Valid()
      reads this
      ensures AtEnd() <==> Rest() == ""
    {
      pos >= |input|
    }

    method Advance()
      requires Valid()
      modifies this`pos
      ensures Valid() && Rest() == if old(Rest()) == "" then "" else old(Rest())[1..]
    {
      if !AtEnd() { pos := pos + 1; }
    }

    method SkipWhitespace(c: Platform)
      requires Valid()
      modifies this`pos
      ensures Valid() && Rest() == JsonPath.SkipWhitespace(c, old(Rest()))
    {
      while !AtEnd() && c.whitespace(Peek().value)
        invariant Valid() && JsonPath.SkipWhitespace(c, Rest()) == JsonPath.SkipWhitespace(c, old(Rest()))
        decreases |input| - pos
      {
        Advance();
      }
    }

    method Parse(c: Platform) returns (r: Result<seq<PathSegment>, ParseError>)
      requires Valid()
      modifies this`pos
      ensures Valid() && Parses(Rest(), r, ParsePath(c, old(Rest())))
    {
      hide JsonPath.ParseSegment;
      if Peek() != Some('$') { return Err(ExpectedRoot); }
      Advance();
      ghost var whole := ParseSegments(c, Rest());
      SkipTwice(c, Rest());
      SkipWhitespace(c);
      var segments := [];
      PushedAll(whole);
      while !AtEnd()
        invariant Valid() && Continues(whole, segments, ParseSegments(c, Rest()))
        decreases |input| - pos
      {
        SkipTwice(c, Rest());
        SkipWhitespace(c);
        if AtEnd() { break; }
        ghost var more := ParseSegments(c, Rest());
        var segment := ParseSegment(c);
        if segment.Err? { return Err(segment.error); }
        ContinuesOn(whole, segments, more, segment.value, ParseSegments(c, Rest()));
        segments := segments + [segment.value];
      }
      assert segments + [] == segments;
      r := Ok(segments);
    }

    /** One turn of the loop. */
    method ParseSegment(c: Platform) returns (r: Result<PathSegment, ParseError>)
      requires Valid() && Rest() != ""
      modifies this`pos
      ensures Valid() && Parses(Rest(), r, JsonPath.ParseSegment(c, old(Rest())))
    {
      hide JsonPath.ParseBracketSelectors, JsonPath.ParseIdentifier;
      match Peek().value {
        case '.' =>
          Advance();
          SkipWhitespace(c);
          if Peek() == Some('.') {
            Advance();
            SkipWhitespace(c);
            var selector := ParseRecursiveSelector(c);
            r := if selector.Ok? then Ok(PathSegment([selector.value], true)) else Err(selector.error);
          } else if Peek() == Some('*') {
            Advance();
            r := Ok(PathSegment([Wildcard], false));
          } else {
            var name := ParseIdentifier(c);
            r := if name.Ok? then Ok(PathSegment([Name(name.value)], false)) else Err(name.error);
          }
        case '[' =>
          var selectors := ParseBracketSelectors(c);
          r := if selectors.Ok? then Ok(PathSegment(selectors.value, false)) else Err(selectors.error);
        case other =>
          r := Err(UnexpectedChar(other));
      }
    }

    method ParseRecursiveSelector(c: Platform) returns (r: Result<Selector, ParseError>)
      requires Valid()
      modifies this`pos
      ensures Valid() && Parses(Rest(), r, JsonPath.ParseRecursiveSelector(c, old(Rest())))
    {
      hide JsonPath.ParseIdentifier;
      SkipWhitespace(c);
      if Peek() == Some('*') {
        Advance();
        return Ok(Wildcard);
      }
      if Peek() == Some('[') {
        var selectors := ParseBracketSelectors(c);
        if selectors.Err? { return Err(selectors.error); }
        return Ok(selectors.value[0]);
      }
      var name := ParseIdentifier(c);
      r := if name.Ok? then Ok(Name(name.value)) else Err(name.error);
    }

    method ParseBracketSelectors(c: Platform) returns (r: Result<seq<Selector>, ParseError>)
      requires Valid()
      modifies this`pos
      ensures Valid() && Parses(Rest(), r, JsonPath.ParseBracketSelectors(c, old(Rest())))
    {
      hide JsonPath.ParseBracketList;
      if Peek() != Some('[') { return Err(UnexpectedChar(PeekOrNul(input[pos..]))); }
      Advance();
      r := ParseBracketList(c);
      if r.Ok? && r.value == [] { r := Err(InvalidSelector); }
    }

    /** The loop behind the opening bracket. */
    method ParseBracketList(c: Platform) returns (r: Result<seq<Selector>, ParseError>)
      requires Valid()
      modifies this`pos
      ensures Valid() && Parses(Rest(), r, JsonPath.ParseBracketList(c, old(Rest())))
    {
      hide JsonPath.ParseBracketSelector, JsonPath.SkipWhitespace;
      ghost var whole := JsonPath.ParseBracketList(c, Rest());
      var selectors := [];
      PushedAll(whole);
      while true
        invariant Valid() && Continues(whole, selectors, JsonPath.ParseBracketList(c, Rest()))
        decreases |input| - pos
      {
        ghost var more := JsonPath.ParseBracketList(c, Rest());
        SkipWhitespace(c);
        if Peek() == Some(']') {
          Advance();
          assert selectors + [] == selectors;
          return Ok(selectors);
        }
        var selector := ParseBracketSelector(c);
        if selector.Err? { return Err(selector.error); }
        SkipWhitespace(c);
        if Peek() == Some(']') {
          Advance();
          return Ok(selectors + [selector.value]);
        }
        if Peek() != Some(',') { return Err(UnexpectedChar(PeekOrNul(input[pos..]))); }
        Advance();
        ContinuesOn(whole, selectors, more, selector.value, JsonPath.ParseBracketList(c, Rest()));
        selectors := selectors + [selector.value];
      }
    }

    method ParseBracketSelector(c: Platform) returns (r: Result<Selector, ParseError>)
      requires Valid()
      modifies this`pos
      ensures Valid() && Parses(Rest(), r, JsonPath.ParseBracketSelector(c, old(Rest())))
    {
      hide ParseQuoted, JsonPath.ParseIndexOrSlice;
      var next := Peek();
      if next == Some('\'') || next == Some('"') {
        Advance();
        var name := ParseString(next.value);
        r := if name.Ok? then Ok(Name(name.value)) else Err(name.error);
      } else if next == Some('*') {
        Advance();
        r := Ok(Wildcard);
      } else if next.Some? && (next.value == ':' || next.value == '-' || IsDigit(next.value)) {
        r := ParseIndexOrSlice(c);
      } else if next == Some('?') {
        Advance();
        r := ParseFilterSelector(c);
      } else {
        r := Err(InvalidSelector);
      }
    }

    /** What the filter parser reads. */
    method MoveOn(n: nat)
      requires Valid()
      modifies this`pos
      ensures Valid() && Rest() == if n <= |old(Rest())| then old(Rest())[n..] else ""
    {
      pos := if n <= |input| - pos then pos + n else |input|;
    }

    method ParseFilterSelector(c: Platform) returns (r: Result<Selector, ParseError>)
      requires Valid()
      modifies this`pos
      ensures Valid() && Parses(Rest(), r, ParseFilter(c, old(Rest())))
    {
      hide JsonPath.SkipWhitespace;
      SkipWhitespace(c);
      var hasParens := false;
      if Peek() == Some('(') {
        Advance();
        hasParens := true;
      }
      var (n, expr) := c.filter(input[pos..]);
      MoveOn(n);
      if expr.Err? { return Err(expr.error); }
      if hasParens {
        SkipWhitespace(c);
        if Peek() != Some(')') { return Err(UnexpectedChar(PeekOrNul(input[pos..]))); }
        Advance();
      }
      r := Ok(FilterBy(expr.value));
    }

    method ParseIndexOrSlice(c: Platform) returns (r: Result<Selector, ParseError>)
      requires Valid()
      modifies this`pos
      ensures Valid() && Parses(Rest(), r, JsonPath.ParseIndexOrSlice(c, old(Rest())))
    {
      hide JsonPath.ParseOptionalNumber, JsonPath.ParseNumber;
      var start := ParseOptionalNumber(c);
      if start.Err? { return Err(start.error); }
      if Peek() == Some(':') {
        Advance();
        var end := ParseOptionalNumber(c);
        if end.Err? { return Err(end.error); }
        var step: Option<ISize> := None;
        if Peek() == Some(':') {
          Advance();
          var n := ParseNumber();
          if n.Err? { return Err(n.error); }
          step := Some(n.value);
        }
        r := Ok(Slice(start.value, end.value, step));
      } else {
        r := Ok(Index(if start.value.Some? then start.value.value else 0));
      }
    }

    method ParseOptionalNumber(c: Platform) returns (r: Result<Option<ISize>, ParseError>)
      requires Valid()
      modifies this`pos
      ensures Valid() && Parses(Rest(), r, JsonPath.ParseOptionalNumber(c, old(Rest())))
    {
      hide JsonPath.ParseNumber;
      SkipWhitespace(c);
      var next := Peek();
      if next.None? || !(IsDigit(next.value) || next.value == '-') { return Ok(None); }
      var n := ParseNumber();
      r := if n.Ok? then Ok(Some(n.value)) else Err(n.error);
    }

    method ParseNumber() returns (r: Result<ISize, ParseError>)
      requires Valid()
      modifies this`pos
      ensures Valid() && Parses(Rest(), r, JsonPath.ParseNumber(old(Rest())))
    {
      var negative := Peek() == Some('-');
      if negative { Advance(); }
      var digits := SkipSpan(Digits());
      r := ToISize(negative, digits);
    }

    /** The loops that take characters of one kind. */
    method SkipSpan(p: char -> bool) returns (taken: string)
      requires Valid()
      modifies this`pos
      ensures Valid() && var n := Span(p, old(Rest())); taken == old(Rest())[..n] && Rest() == old(Rest())[n..]
      ensures forall i :: 0 <= i < |taken| ==> p(taken[i])
    {
      var start := pos;
      while !AtEnd() && p(Peek().value)
        invariant start <= pos && Valid() && Span(p, old(Rest())) == pos - start + Span(p, Rest())
        decreases |input| - pos
      {
        Advance();
      }
      taken := input[start..pos];
    }

    method ParseIdentifier(c: Platform) returns (r: Result<string, ParseError>)
      requires Valid()
      modifies this`pos
      ensures Valid() && Parses(Rest(), r, JsonPath.ParseIdentifier(c, old(Rest())))
    {
      var start := pos;
      var name := SkipSpan(Words(c));
      r := if name == "" then Err(UnexpectedEnd) else Ok(name);
    }

    /** Behind the opening quote. */
    method ParseString(quote: char) returns (r: Result<string, ParseError>)
      requires Valid()
      modifies this`pos
      ensures Valid() && Parses(Rest(), r, ParseQuoted(quote, old(Rest())))
    {
      ghost var whole := ParseQuoted(quote, Rest());
      var result := "";
      PushedAll(whole);
      while true
        invariant Valid() && Continues(whole, result, ParseQuoted(quote, Rest()))
        decreases |input| - pos
      {
        ghost var more := ParseQuoted(quote, Rest());
        var next := Peek();
        if next.None? { return Err(UnclosedString); }
        if next.value == quote {
          Advance();
          assert result + "" == result;
          break;
        }
        var ch := next.value;
        if ch == '\\' {
          Advance();
          var escaped := Unescape(input[pos..]);
          if escaped.None? { return Err(InvalidEscape); }
          ch := escaped.value;
        }
        Advance();
        ContinuesOn(whole, result, more, ch, ParseQuoted(quote, Rest()));
        result := result + [ch];
      }
      r := Ok(result);
    }
  }

  /** A list read so far, and what the parse of the rest makes of the whole. */
  ghost predicate Continues<T>(whole: Parsed<seq<T>>, got: seq<T>, more: Parsed<seq<T>>) {
    && whole.rest == more.rest && whole.result.Ok? == more.result.Ok?
    && (more.result.Ok? ==> whole.result.value == got + more.result.value)
    && (more.result.Err? ==> whole.result.error == more.result.error)
  }

  lemma PushedAll<T>(whole: Parsed<seq<T>>)
    ensures Continues(whole, [], whole)
  {
    if whole.result.Ok? { assert [] + whole.result.value == whole.result.value; }
  }

  lemma ContinuesOn<T>(whole: Parsed<seq<T>>, got: seq<T>, more: Parsed<seq<T>>, x: T, left: Parsed<seq<T>>)
    requires Continues(whole, got, more) && more == Pushed(x, left)
    ensures Continues(whole, got + [x], left)
  {
    if left.result.Ok? { ConcatAssoc(got, [x], left.result.value); }
  }

  lemma SkipTwice(c: Platform, s: string)
    ensures JsonPath.SkipWhitespace(c, JsonPath.SkipWhitespace(c, s)) == JsonPath.SkipWhitespace(c, s)
    ensures ParseSegments(c, JsonPath.SkipWhitespace(c, s)) == ParseSegments(c, s)
  {
  }

  // ---------------------------------------------------------------- printer

  method PathToString(c: Platform, path: seq<PathSegment>) returns (out: string)
    ensures out == JsonPath.PathToString(c, path)
  {
    out := "$";
    var i := 0;
    assert path[0..] == path;
    while i < |path|
      invariant 0 <= i <= |path| && out + SegmentsToString(c, path[i..]) == JsonPath.PathToString(c, path)
    {
      assert path[i..][0] == path[i] && path[i..][1..] == path[i + 1..];
      ConcatAssoc(out, SegmentToString(c, path[i]), SegmentsToString(c, path[i + 1..]));
      out := out + SegmentToString(c, path[i]);
      i := i + 1;
    }
    assert path[i..] == [] && out + "" == out;
  }

  method EscapeSingleQuoted(input: string) returns (out: string)
    ensures out == Escaped(input)
  {
    out := "";
    var i := 0;
    assert input[0..] == input;
    while i < |input|
      invariant 0 <= i <= |input| && out + Escaped(input[i..]) == Escaped(input)
    {
      assert input[i..][0] == input[i] && input[i..][1..] == input[i + 1..];
      ConcatAssoc(out, EscapedChar(input[i]), Escaped(input[i + 1..]));
      match input[i] {
        case '\\' => out := out + "\\\\";
        case '\'' => out := out + "\\'";
        case ch => out := out + [ch];
      }
      i := i + 1;
    }
    assert input[i..] == "" && out + "" == out;
  }

  /** A path put through the printer and the parser: it comes back or the parser refuses it. */
  method PrintAndParse(c: Platform, path: seq<PathSegment>) returns (r: Result<seq<PathSegment>, ParseError>)
    ensures r == ParsePath(c, JsonPath.PathToString(c, path)).result
  {
    var text := PathToString(c, path);
    var parser := new Parser(text);
    r := parser.Parse(c);
  }
}
