/**
 JSONPath syntax trees, the printer of crates/json-joy-json-path/src/util.rs and what the parser of
 parser.rs makes of its input. Filter expressions are left to a parameter.
 */
module JsonPath {
  import opened Common

  type ISize = n: int | -0x8000_0000_0000_0000 <= n < 0x8000_0000_0000_0000

  /** A filter expression, whatever it is. */
  type Filter = nat

  datatype Selector =
    | Name(name: string)
    | Index(index: ISize)
    | Slice(start: Option<ISize>, end: Option<ISize>, step: Option<ISize>)
    | Wildcard
    | FilterBy(filter: Filter)

  datatype PathSegment = PathSegment(selectors: seq<Selector>, recursive: bool)

  datatype ParseError =
    | ExpectedRoot
    | UnexpectedChar(c: char)
    | UnexpectedEnd
    | InvalidEscape
    | InvalidNumber
    | UnclosedString
    | InvalidSelector

  /** Unicode character classes, and the filter parser: how much it reads and what it makes of it. */
  datatype Platform = Platform(
    alphabetic: char -> bool,
    alphanumeric: char -> bool,
    whitespace: char -> bool,
    filter: string -> (nat, Result<Filter, ParseError>)
  )

  // ---------------------------------------------------------------- numbers

  predicate IsDigit(c: char) {
    '0' <= c <= '9'
  }

  function Digit(n: nat): char
    requires n < 10
  {
    '0' + n as char
  }

  function Decimal(n: nat): (r: string)
    ensures r != "" && forall i :: 0 <= i < |r| ==> IsDigit(r[i])
  {
    if n < 10 then [Digit(n)] else Decimal(n / 10) + [Digit(n % 10)]
  }

  function ToString(n: int): string {
    if n < 0 then "-" + Decimal(-n) else Decimal(n)
  }

  function DigitValue(c: char): nat
    requires IsDigit(c)
  {
    c as nat - '0' as nat
  }

  function DigitsValue(s: string): nat
    requires forall i :: 0 <= i < |s| ==> IsDigit(s[i])
  {
    if s == "" then 0 else 10 * DigitsValue(s[..|s| - 1]) + DigitValue(s[|s| - 1])
  }

  /** A sign and digits as a machine integer. */
  function ToISize(negative: bool, digits: string): Result<ISize, ParseError>
    requires forall i :: 0 <= i < |digits| ==> IsDigit(digits[i])
  {
    if digits == "" then Err(InvalidNumber) else
    var v := if negative then 0 - DigitsValue(digits) else DigitsValue(digits) + 0;
    if -0x8000_0000_0000_0000 <= v < 0x8000_0000_0000_0000 then Ok(v) else Err(InvalidNumber)
  }

  // ---------------------------------------------------------------- printer

  predicate IsWord(c: Platform, ch: char) {
    c.alphanumeric(ch) || ch == '_' || ch == '-'
  }

  predicate IsIdentifier(c: Platform, name: string) {
    name != "" && (c.alphabetic(name[0]) || name[0] == '_') && forall i :: 1 <= i < |name| ==> IsWord(c, name[i])
  }

  function EscapedChar(ch: char): string {
    if ch == '\\' then "\\\\" else if ch == '\'' then "\\'" else [ch]
  }

  function Escaped(s: string): string {
    if s == "" then "" else EscapedChar(s[0]) + Escaped(s[1..])
  }

  function OptionalToString(n: Option<ISize>): string {
    if n.Some? then ToString(n.value) else ""
  }

  function Bracketed(s: string): string {
    "[" + s + "]"
  }

  function SliceToString(start: Option<ISize>, end: Option<ISize>, step: Option<ISize>): string {
    OptionalToString(start) + ":" + OptionalToString(end) + (if step.Some? then ":" + ToString(step.value) else "")
  }

  function SelectorToSegment(c: Platform, s: Selector): string {
    match s
    case Name(name) => if IsIdentifier(c, name) then "." + name else Bracketed("'" + Escaped(name) + "'")
    case Index(i) => Bracketed(ToString(i))
    case Slice(start, end, step) => Bracketed(SliceToString(start, end, step))
    case Wildcard => ".*"
    case FilterBy(_) => "[?(...)]"
  }

  function SelectorToTail(c: Platform, s: Selector): string {
    match s
    case Name(name) => if IsIdentifier(c, name) then name else Bracketed("'" + Escaped(name) + "'")
    case Wildcard => "*"
    case _ => SelectorToSegment(c, s)
  }

  function JoinSelectors(c: Platform, ss: seq<Selector>): string {
    if ss == [] then "" else SelectorToSegment(c, ss[0]) + if |ss| == 1 then "" else "," + JoinSelectors(c, ss[1..])
  }

  function SegmentToString(c: Platform, s: PathSegment): string {
    if |s.selectors| == 1 then
      if s.recursive then ".." + SelectorToTail(c, s.selectors[0]) else SelectorToSegment(c, s.selectors[0])
    else
      (if s.recursive then ".." else "") + Bracketed(JoinSelectors(c, s.selectors))
  }

  function SegmentsToString(c: Platform, path: seq<PathSegment>): string {
    if path == [] then "" else SegmentToString(c, path[0]) + SegmentsToString(c, path[1..])
  }

  function PathToString(c: Platform, path: seq<PathSegment>): string {
    "$" + SegmentsToString(c, path)
  }

  // ---------------------------------------------------------------- parser

  /** The input left, and what came of the parse. */
  datatype Parsed<+T> = Parsed(rest: string, result: Result<T, ParseError>)

  predicate Starts(s: string, ch: char) {
    s != "" && s[0] == ch
  }

  /** The next character, or NUL at the end. */
  function PeekOrNul(s: string): char {
    if s == "" then '\0' else s[0]
  }

  function SkipWhitespace(c: Platform, s: string): (r: string)
    ensures |r| <= |s|
    ensures r == "" || !c.whitespace(r[0])
  {
    if s != "" && c.whitespace(s[0]) then SkipWhitespace(c, s[1..]) else s
  }

  /** How far `p` holds from the front of `s`. */
  function Span(p: char -> bool, s: string): (n: nat)
    ensures n <= |s| && (forall i :: 0 <= i < n ==> p(s[i])) && (n < |s| ==> !p(s[n]))
  {
    if s != "" && p(s[0]) then Span(p, s[1..]) + 1 else 0
  }

  function Digits(): char -> bool {
    (ch: char) => IsDigit(ch)
  }

  function Words(c: Platform): char -> bool {
    (ch: char) => IsWord(c, ch)
  }

  function ParseIdentifier(c: Platform, s: string): (r: Parsed<string>)
    ensures r.result.Ok? ==> |r.rest| < |s|
  {
    var n := Span(Words(c), s);
    if n == 0 then Parsed(s, Err(UnexpectedEnd)) else Parsed(s[n..], Ok(s[..n]))
  }

  function ParseNumber(s: string): (r: Parsed<ISize>)
    ensures r.result.Ok? ==> |r.rest| < |s|
  {
    var negative := Starts(s, '-');
    var t := if negative then s[1..] else s;
    var n := Span(Digits(), t);
    Parsed(t[n..], ToISize(negative, t[..n]))
  }

  function ParseOptionalNumber(c: Platform, s: string): (r: Parsed<Option<ISize>>)
    ensures r.result.Ok? ==> |r.rest| <= |s|
  {
    var t := SkipWhitespace(c, s);
    if t != "" && (IsDigit(t[0]) || t[0] == '-') then
      var n := ParseNumber(t);
      Parsed(n.rest, match n.result case Ok(v) => Ok(Some(v)) case Err(e) => Err(e))
    else Parsed(t, Ok(None))
  }

  function ParseIndexOrSlice(c: Platform, s: string): (r: Parsed<Selector>)
    ensures r.result.Ok? ==> |r.rest| <= |s|
  {
    var start := ParseOptionalNumber(c, s);
    match start.result
    case Err(e) => Parsed(start.rest, Err(e))
    case Ok(from) =>
      if Starts(start.rest, ':') then ParseSliceEnd(c, from, start.rest[1..])
      else Parsed(start.rest, Ok(Index(if from.Some? then from.value else 0)))
  }

  /** Behind the first colon. */
  function ParseSliceEnd(c: Platform, from: Option<ISize>, s: string): (r: Parsed<Selector>)
    ensures r.result.Ok? ==> |r.rest| <= |s|
  {
    var end := ParseOptionalNumber(c, s);
    match end.result
    case Err(e) => Parsed(end.rest, Err(e))
    case Ok(to) =>
      if Starts(end.rest, ':') then
        var step := ParseNumber(end.rest[1..]);
        Parsed(step.rest, match step.result case Ok(v) => Ok(Slice(from, to, Some(v))) case Err(e) => Err(e))
      else Parsed(end.rest, Ok(Slice(from, to, None)))
  }

  /** Behind the opening quote. */
  function ParseQuoted(quote: char, s: string): (r: Parsed<string>)
    ensures r.result.Ok? ==> |r.rest| < |s|
  {
    if s == "" then Parsed(s, Err(UnclosedString))
    else if s[0] == quote then Parsed(s[1..], Ok(""))
    else if s[0] == '\\' then
      match Unescape(s[1..])
      case None => Parsed(s[1..], Err(InvalidEscape))
      case Some(ch) => Pushed(ch, ParseQuoted(quote, s[2..]))
    else Pushed(s[0], ParseQuoted(quote, s[1..]))
  }

  /** What a backslash in front of `s` stands for. */
  function Unescape(s: string): (r: Option<char>)
    ensures r.Some? ==> s != ""
  {
    if s == "" then None
    else if s[0] == 'n' then Some('\n')
    else if s[0] == 't' then Some('\t')
    else if s[0] == 'r' then Some('\r')
    else if s[0] == '\\' || s[0] == '\'' || s[0] == '"' then Some(s[0])
    else None
  }

  function Pushed<T>(x: T, more: Parsed<seq<T>>): Parsed<seq<T>> {
    Parsed(more.rest, match more.result case Ok(xs) => Ok([x] + xs) case Err(e) => Err(e))
  }

  function ParseFilter(c: Platform, s: string): (r: Parsed<Selector>)
    ensures r.result.Ok? ==> |r.rest| <= |s|
  {
    var t := SkipWhitespace(c, s);
    var parens := Starts(t, '(');
    var u := if parens then t[1..] else t;
    var (n, f) := c.filter(u);
    var w := if n <= |u| then u[n..] else "";
    match f
    case Err(e) => Parsed(w, Err(e))
    case Ok(filter) =>
      if !parens then Parsed(w, Ok(FilterBy(filter))) else
      var x := SkipWhitespace(c, w);
      if Starts(x, ')') then Parsed(x[1..], Ok(FilterBy(filter))) else Parsed(x, Err(UnexpectedChar(PeekOrNul(x))))
  }

  function ParseBracketSelector(c: Platform, s: string): (r: Parsed<Selector>)
    ensures r.result.Ok? ==> |r.rest| <= |s|
  {
    if s == "" then Parsed(s, Err(InvalidSelector))
    else if s[0] == '\'' || s[0] == '"' then
      var name := ParseQuoted(s[0], s[1..]);
      Parsed(name.rest, match name.result case Ok(n) => Ok(Name(n)) case Err(e) => Err(e))
    else if s[0] == '*' then Parsed(s[1..], Ok(Wildcard))
    else if s[0] == ':' || s[0] == '-' || IsDigit(s[0]) then ParseIndexOrSlice(c, s)
    else if s[0] == '?' then ParseFilter(c, s[1..])
    else Parsed(s, Err(InvalidSelector))
  }

  /** Behind the opening bracket. A comma may come before the closing one. */
  function ParseBracketList(c: Platform, s: string): (r: Parsed<seq<Selector>>)
    ensures r.result.Ok? ==> |r.rest| < |s|
    decreases |s|
  {
    var t := SkipWhitespace(c, s);
    if Starts(t, ']') then Parsed(t[1..], Ok([])) else
    var one := ParseBracketSelector(c, t);
    match one.result
    case Err(e) => Parsed(one.rest, Err(e))
    case Ok(selector) =>
      var u := SkipWhitespace(c, one.rest);
      if Starts(u, ',') then Pushed(selector, ParseBracketList(c, u[1..]))
      else if Starts(u, ']') then Parsed(u[1..], Ok([selector]))
      else Parsed(u, Err(UnexpectedChar(PeekOrNul(u))))
  }

  function ParseBracketSelectors(c: Platform, s: string): (r: Parsed<seq<Selector>>)
    ensures r.result.Ok? ==> |r.rest| < |s| && r.result.value != []
  {
    if !Starts(s, '[') then Parsed(s, Err(UnexpectedChar(PeekOrNul(s)))) else
    var list := ParseBracketList(c, s[1..]);
    if list.result == Ok([]) then Parsed(list.rest, Err(InvalidSelector)) else list
  }

  function ParseRecursiveSelector(c: Platform, s: string): (r: Parsed<Selector>)
    ensures r.result.Ok? ==> |r.rest| < |s|
  {
    var t := SkipWhitespace(c, s);
    if Starts(t, '*') then Parsed(t[1..], Ok(Wildcard))
    else if Starts(t, '[') then
      var list := ParseBracketSelectors(c, t);
      Parsed(list.rest, match list.result case Ok(ss) => Ok(ss[0]) case Err(e) => Err(e))
    else
      var name := ParseIdentifier(c, t);
      Parsed(name.rest, match name.result case Ok(n) => Ok(Name(n)) case Err(e) => Err(e))
  }

  function ParseSegment(c: Platform, s: string): (r: Parsed<PathSegment>)
    requires s != ""
    ensures r.result.Ok? ==> |r.rest| < |s|
  {
    if s[0] == '.' then
      var t := SkipWhitespace(c, s[1..]);
      if Starts(t, '.') then
        var one := ParseRecursiveSelector(c, SkipWhitespace(c, t[1..]));
        Parsed(one.rest, match one.result case Ok(x) => Ok(PathSegment([x], true)) case Err(e) => Err(e))
      else if Starts(t, '*') then Parsed(t[1..], Ok(PathSegment([Wildcard], false)))
      else
        var name := ParseIdentifier(c, t);
        Parsed(name.rest, match name.result case Ok(n) => Ok(PathSegment([Name(n)], false)) case Err(e) => Err(e))
    else if s[0] == '[' then
      var list := ParseBracketSelectors(c, s);
      Parsed(list.rest, match list.result case Ok(ss) => Ok(PathSegment(ss, false)) case Err(e) => Err(e))
    else Parsed(s, Err(UnexpectedChar(s[0])))
  }

  function ParseSegments(c: Platform, s: string): Parsed<seq<PathSegment>>
    decreases |s|
  {
    var t := SkipWhitespace(c, s);
    if t == "" then Parsed(t, Ok([])) else
    var one := ParseSegment(c, t);
    match one.result
    case Err(e) => Parsed(one.rest, Err(e))
    case Ok(segment) => Pushed(segment, ParseSegments(c, one.rest))
  }

  function ParsePath(c: Platform, s: string): Parsed<seq<PathSegment>> {
    if !Starts(s, '$') then Parsed(s, Err(ExpectedRoot)) else ParseSegments(c, s[1..])
  }
}
