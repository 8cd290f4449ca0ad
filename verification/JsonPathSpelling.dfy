/**
 All the ways to write a JSONPath without filters, white space, quotes, escapes, lists and commas
 included, and that the parser reads each of them as what it says.
 */
module JsonPathSpelling {
  import opened Common
  import opened JsonPath
  import opened JsonPathRoundTrip

  /** A double quote is no white space either. */
  ghost predicate Plain(c: Platform) {
    Sane(c) && !c.whitespace('"')
  }

  // ---------------------------------------------------------------- white space

  ghost predicate Blank(c: Platform, s: string) {
    forall i :: 0 <= i < |s| ==> c.whitespace(s[i])
  }

  lemma {:induction false} BlankSkipped(c: Platform, b: string, rest: string)
    requires Blank(c, b)
    ensures SkipWhitespace(c, b + rest) == SkipWhitespace(c, rest)
  {
    if b == "" {
      assert b + rest == rest;
    } else {
      assert (b + rest)[0] == b[0] && (b + rest)[1..] == b[1..] + rest;
      BlankSkipped(c, b[1..], rest);
    }
  }

  lemma {:induction false} SkippedTwice(c: Platform, s: string)
    ensures SkipWhitespace(c, SkipWhitespace(c, s)) == SkipWhitespace(c, s)
  {
    if s != "" && c.whitespace(s[0]) { SkippedTwice(c, s[1..]); }
  }

  // ---------------------------------------------------------------- quoted names

  /** What a character behind a backslash stands for. */
  ghost predicate Escape(e: char, ch: char) {
    (e == 'n' && ch == '\n') || (e == 't' && ch == '\t') || (e == 'r' && ch == '\r') || ((e == '\\' || e == '\'' || e == '"') && ch == e)
  }

  /** Between two quotes `q`, `t` writes `name`. */
  ghost predicate Spells(q: char, t: string, name: string)
    decreases |t|
  {
    if t == "" then name == ""
    else if t[0] == '\\' then |t| >= 2 && name != "" && Escape(t[1], name[0]) && Spells(q, t[2..], name[1..])
    else t[0] != q && name != "" && t[0] == name[0] && Spells(q, t[1..], name[1..])
  }

  /** A quoted name is read to its closing quote; an unknown escape or the end of the input in it is refused. */
  lemma {:induction false} QuotedSpelling(q: char, t: string, name: string, rest: string, e: char)
    requires (q == '\'' || q == '"') && Spells(q, t, name)
    ensures ParseQuoted(q, t + ([q] + rest)) == Parsed(rest, Ok(name))
    ensures ParseQuoted(q, t) == Parsed("", Err(UnclosedString))
    ensures (forall ch :: !Escape(e, ch)) ==> ParseQuoted(q, t + ("\\" + [e] + rest)).result == Err(InvalidEscape)
    decreases |t|
  {
    var closed, bad := [q] + rest, "\\" + [e] + rest;
    if t == "" {
      assert t + closed == closed && closed[1..] == rest;
      assert t + bad == bad && bad[1..][0] == e;
      if forall ch :: !Escape(e, ch) { assert !Escape(e, e) && !Escape(e, '\n') && !Escape(e, '\t') && !Escape(e, '\r'); }
    } else {
      var k := if t[0] == '\\' then 2 else 1;
      QuotedSpelling(q, t[k..], name[1..], rest, e);
      assert name == [name[0]] + name[1..];
      QuotedHead(q, t, name[0], closed);
      QuotedHead(q, t, name[0], bad);
      QuotedHead(q, t, name[0], "");
      assert t + "" == t && t[k..] + "" == t[k..];
    }
  }

  lemma QuotedHead(q: char, t: string, ch: char, more: string)
    requires (q == '\'' || q == '"') && t != ""
    requires if t[0] == '\\' then |t| >= 2 && Escape(t[1], ch) else t[0] != q && t[0] == ch
    ensures ParseQuoted(q, t + more) == Pushed(ch, ParseQuoted(q, t[if t[0] == '\\' then 2 else 1..] + more))
  {
    var s := t + more;
    if t[0] == '\\' {
      assert s[1..][0] == t[1] && s[2..] == t[2..] + more;
    } else {
      assert s[1..] == t[1..] + more;
    }
  }

  // ---------------------------------------------------------------- selectors

  /** In brackets, `t` writes the selector `s`. */
  ghost predicate Writes(c: Platform, t: string, s: Selector) {
    match s
    case Name(name) => exists q: char, inner: string :: (q == '\'' || q == '"') && Spells(q, inner, name) && t == [q] + (inner + [q])
    case Index(i) => t == ToString(i)
    case Slice(start, end, step) => exists gap :: Blank(c, gap) && t == SpacedSlice(s, gap)
    case Wildcard => t == "*"
    case FilterBy(_) => false
  }

  /** White space may come behind the first colon of a slice. */
  ghost function SpacedSlice(s: Selector, gap: string): string
    requires s.Slice?
  {
    OptionalToString(s.start) + (":" + (gap + (OptionalToString(s.end) + (if s.step.Some? then ":" + ToString(s.step.value) else ""))))
  }

  /** What comes behind a selector: a comma or the closing bracket, perhaps behind white space. */
  ghost predicate Ends(c: Platform, rest: string) {
    var u := SkipWhitespace(c, rest);
    Starts(u, ',') || Starts(u, ']')
  }

  lemma EndsWith(c: Platform, rest: string)
    requires Plain(c) && Ends(c, rest)
    ensures rest != "" && !IsDigit(rest[0]) && rest[0] != ':' && rest[0] != '-'
    ensures var u := SkipWhitespace(c, rest); u != "" && !IsDigit(u[0]) && u[0] != '-' && u[0] != ':'
  {
    assert IsPunctuation(':') && IsPunctuation('-');
  }

  /** An optional number behind white space, in front of something that is no part of it. */
  lemma OptionalNumberReads(c: Platform, gap: string, n: Option<ISize>, rest: string)
    requires Plain(c) && Blank(c, gap) && rest != "" && !IsDigit(rest[0])
    requires n.None? ==> var u := SkipWhitespace(c, rest); u != "" && !IsDigit(u[0]) && u[0] != '-'
    ensures ParseOptionalNumber(c, gap + (OptionalToString(n) + rest)) == Parsed(if n.Some? then rest else SkipWhitespace(c, rest), Ok(n))
  {
    hide ToString, ParseNumber;
    var t := OptionalToString(n) + rest;
    BlankSkipped(c, gap, t);
    if n.Some? {
      NumberStart(n.value);
      NumberParses(n.value, rest);
      assert t[0] == ToString(n.value)[0];
      assert IsPunctuation('-') && !c.whitespace(t[0]);
      assert SkipWhitespace(c, t) == t;
    } else {
      assert t == rest;
    }
  }

  lemma StepReads(c: Platform, s: Selector, gap: string, rest: string)
    requires Plain(c) && s.Slice? && Blank(c, gap) && Ends(c, rest)
    ensures var tail := OptionalToString(s.end) + (if s.step.Some? then ":" + ToString(s.step.value) else "");
            var r := ParseSliceEnd(c, s.start, gap + tail + rest);
            r.result == Ok(s) && SkipWhitespace(c, r.rest) == SkipWhitespace(c, rest)
  {
    hide OptionalToString, ToString, ParseNumber, ParseOptionalNumber;
    EndsWith(c, rest);
    SkippedTwice(c, rest);
    if s.step.Some? {
      var step := ToString(s.step.value);
      var more := ":" + (step + rest);
      assert gap + (OptionalToString(s.end) + (":" + step)) + rest == gap + (OptionalToString(s.end) + more);
      assert IsPunctuation(':') && SkipWhitespace(c, more) == more && more[1..] == step + rest;
      OptionalNumberReads(c, gap, s.end, more);
      NumberParses(s.step.value, rest);
    } else {
      assert gap + (OptionalToString(s.end) + "") + rest == gap + (OptionalToString(s.end) + rest);
      OptionalNumberReads(c, gap, s.end, rest);
    }
  }

  lemma SliceReads(c: Platform, s: Selector, gap: string, rest: string)
    requires Plain(c) && s.Slice? && Blank(c, gap) && Ends(c, rest)
    ensures var r := ParseIndexOrSlice(c, SpacedSlice(s, gap) + rest); r.result == Ok(s) && SkipWhitespace(c, r.rest) == SkipWhitespace(c, rest)
  {
    hide OptionalToString, ToString, ParseSliceEnd, ParseOptionalNumber;
    var tail := OptionalToString(s.end) + (if s.step.Some? then ":" + ToString(s.step.value) else "");
    var more := ":" + (gap + tail + rest);
    assert SpacedSlice(s, gap) + rest == "" + (OptionalToString(s.start) + more);
    assert more[1..] == gap + tail + rest;
    assert IsPunctuation(':') && SkipWhitespace(c, more) == more;
    OptionalNumberReads(c, "", s.start, more);
    StepReads(c, s, gap, rest);
  }

  lemma IndexReads(c: Platform, i: ISize, rest: string)
    requires Plain(c) && Ends(c, rest)
    ensures ParseIndexOrSlice(c, ToString(i) + rest) == Parsed(rest, Ok(Index(i)))
  {
    hide ToString, ParseOptionalNumber;
    EndsWith(c, rest);
    OptionalNumberReads(c, "", Some(i), rest);
    assert "" + (OptionalToString(Some(i)) + rest) == ToString(i) + rest;
  }

  lemma SelectorReads(c: Platform, t: string, s: Selector, rest: string)
    requires Plain(c) && Writes(c, t, s) && Ends(c, rest)
    ensures t != "" && !c.whitespace(t[0]) && t[0] != ']'
    ensures var r := ParseBracketSelector(c, t + rest); r.result == Ok(s) && SkipWhitespace(c, r.rest) == SkipWhitespace(c, rest)
  {
    hide ToString, OptionalToString, ParseIndexOrSlice, ParseQuoted, Spells, Ends;
    assert IsPunctuation('\'') && IsPunctuation('*') && IsPunctuation(':') && IsPunctuation('-');
    match s
    case Name(name) =>
      var q: char, inner: string :| (q == '\'' || q == '"') && Spells(q, inner, name) && t == [q] + (inner + [q]);
      QuotedSpelling(q, inner, name, rest, q);
      assert (t + rest)[1..] == inner + ([q] + rest);
    case Index(i) =>
      NumberStart(i);
      IndexReads(c, i, rest);
    case Slice(_, _, _) =>
      var gap :| Blank(c, gap) && t == SpacedSlice(s, gap);
      if s.start.Some? { NumberStart(s.start.value); }
      SpacedStart(s, gap);
      SliceReads(c, s, gap, rest);
    case Wildcard => assert (t + rest)[1..] == rest;
  }

  lemma SpacedStart(s: Selector, gap: string)
    requires s.Slice?
    ensures var t := SpacedSlice(s, gap); t != "" && (t[0] == ':' || t[0] == '-' || IsDigit(t[0]))
  {
    if s.start.Some? { NumberStart(s.start.value); }
  }

  // ---------------------------------------------------------------- lists

  /** One selector of a list, with the white space around it. */
  datatype Item = Item(before: string, text: string, after: string, selector: Selector)

  ghost predicate GoodItem(c: Platform, item: Item) {
    Blank(c, item.before) && Writes(c, item.text, item.selector) && Blank(c, item.after)
  }

  ghost predicate GoodItems(c: Platform, items: seq<Item>) {
    items != [] && forall i :: 0 <= i < |items| ==> GoodItem(c, items[i])
  }

  /** The items between commas, and then what closes the list. */
  ghost function ListText(items: seq<Item>, close: string): string {
    if items == [] then close else
    items[0].before + (items[0].text + (items[0].after + (if |items| == 1 then close else "," + ListText(items[1..], close))))
  }

  ghost function Selectors(items: seq<Item>): (r: seq<Selector>)
    ensures |r| == |items| && forall i :: 0 <= i < |r| ==> r[i] == items[i].selector
  {
    if items == [] then [] else [items[0].selector] + Selectors(items[1..])
  }

  /** The closing bracket, perhaps behind one more comma. */
  ghost function Close(comma: Option<string>, rest: string): string {
    (if comma.Some? then "," + comma.value else "") + ("]" + rest)
  }

  lemma ClosedReads(c: Platform, comma: Option<string>, rest: string)
    requires Plain(c) && (comma.Some? ==> Blank(c, comma.value))
    ensures var t := Close(comma, rest); SkipWhitespace(c, t) == t && (Starts(t, ',') || Starts(t, ']'))
    ensures comma.None? ==> Close(comma, rest)[1..] == rest && Close(comma, rest)[0] == ']'
    ensures comma.Some? ==> Close(comma, rest)[0] == ',' && ParseBracketList(c, Close(comma, rest)[1..]) == Parsed(rest, Ok([]))
  {
    assert IsPunctuation(',') && IsPunctuation(']');
    if comma.Some? {
      assert Close(comma, rest)[1..] == comma.value + ("]" + rest);
      BlankSkipped(c, comma.value, "]" + rest);
      assert ("]" + rest)[1..] == rest;
    } else {
      assert Close(comma, rest) == "]" + rest;
    }
  }

  lemma {:induction false} ListReads(c: Platform, items: seq<Item>, comma: Option<string>, rest: string)
    requires Plain(c) && GoodItems(c, items) && (comma.Some? ==> Blank(c, comma.value))
    ensures ParseBracketList(c, ListText(items, Close(comma, rest))) == Parsed(rest, Ok(Selectors(items)))
    decreases |items|
  {
    hide ParseBracketSelector, Writes, Close;
    var close, item := Close(comma, rest), items[0];
    ClosedReads(c, comma, rest);
    assert GoodItem(c, item);
    if |items| == 1 {
      assert items[1..] == [];
      LastItemReads(c, item, close);
      assert [item.selector] + [] == [item.selector];
    } else {
      ListReads(c, items[1..], comma, rest);
      var more := "," + ListText(items[1..], close);
      assert IsPunctuation(',') && SkipWhitespace(c, more) == more && more[1..] == ListText(items[1..], close);
      LastItemReads(c, item, more);
    }
  }

  lemma LastItemReads(c: Platform, item: Item, more: string)
    requires Plain(c) && GoodItem(c, item) && SkipWhitespace(c, more) == more && (Starts(more, ',') || Starts(more, ']'))
    ensures ParseBracketList(c, item.before + (item.text + (item.after + more)))
            == if more[0] == ',' then Pushed(item.selector, ParseBracketList(c, more[1..])) else Parsed(more[1..], Ok([item.selector]))
  {
    hide ParseBracketSelector, Writes;
    var t := item.text + (item.after + more);
    BlankSkipped(c, item.after, more);
    SelectorReads(c, item.text, item.selector, item.after + more);
    BlankSkipped(c, item.before, t);
    assert t[0] == item.text[0];
    assert SkipWhitespace(c, t) == t;
  }

  // ---------------------------------------------------------------- paths

  datatype Tail = Any | Named(name: string) | Listed(items: seq<Item>, comma: Option<string>)

  /** A segment behind white space; a dot may have white space behind it, also the second of two. */
  datatype Step =
    | Bracket(lead: string, items: seq<Item>, comma: Option<string>)
    | Dot(lead: string, gap: string, tail: Tail)
    | Dots(lead: string, gap: string, gap2: string, tail: Tail)

  ghost predicate GoodTail(c: Platform, tail: Tail) {
    match tail
    case Any => true
    case Named(name) => name != "" && forall i :: 0 <= i < |name| ==> IsWord(c, name[i])
    case Listed(items, comma) => GoodItems(c, items) && (comma.Some? ==> Blank(c, comma.value))
  }

  ghost predicate GoodStep(c: Platform, step: Step) {
    && Blank(c, step.lead)
    && match step
       case Bracket(_, items, comma) => GoodTail(c, Listed(items, comma))
       case Dot(_, gap, tail) => Blank(c, gap) && GoodTail(c, tail) && !tail.Listed?
       case Dots(_, gap, gap2, tail) => Blank(c, gap) && Blank(c, gap2) && GoodTail(c, tail)
  }

  ghost function TailText(tail: Tail, rest: string): string {
    match tail
    case Any => "*" + rest
    case Named(name) => name + rest
    case Listed(items, comma) => "[" + ListText(items, Close(comma, rest))
  }

  ghost function StepText(step: Step, rest: string): string {
    match step
    case Bracket(_, items, comma) => TailText(Listed(items, comma), rest)
    case Dot(_, gap, tail) => "." + (gap + TailText(tail, rest))
    case Dots(_, gap, gap2, tail) => "." + (gap + ("." + (gap2 + TailText(tail, rest))))
  }

  ghost function PathText(steps: seq<Step>, trail: string): string {
    if steps == [] then trail else steps[0].lead + StepText(steps[0], PathText(steps[1..], trail))
  }

  /** What is selected: behind two dots, only by the first selector of a list. */
  ghost function TailSelector(tail: Tail): Selector
    requires tail.Listed? ==> tail.items != []
  {
    match tail
    case Any => Wildcard
    case Named(name) => Name(name)
    case Listed(items, _) => items[0].selector
  }

  ghost function StepSegment(c: Platform, step: Step): PathSegment
    requires GoodStep(c, step)
  {
    match step
    case Bracket(_, items, _) => PathSegment(Selectors(items), false)
    case Dot(_, _, tail) => PathSegment([TailSelector(tail)], false)
    case Dots(_, _, _, tail) => PathSegment([TailSelector(tail)], true)
  }

  ghost function Segments(c: Platform, steps: seq<Step>): (r: seq<PathSegment>)
    requires forall i :: 0 <= i < |steps| ==> GoodStep(c, steps[i])
    ensures |r| == |steps| && forall i :: 0 <= i < |r| ==> r[i] == StepSegment(c, steps[i])
  {
    if steps == [] then [] else [StepSegment(c, steps[0])] + Segments(c, steps[1..])
  }

  /** What may come behind a name. */
  ghost predicate EndsName(c: Platform, rest: string) {
    rest != "" ==> c.whitespace(rest[0]) || rest[0] == '.' || rest[0] == '['
  }

  lemma NameReads(c: Platform, name: string, rest: string)
    requires Plain(c) && GoodTail(c, Named(name)) && EndsName(c, rest)
    ensures ParseIdentifier(c, name + rest) == Parsed(rest, Ok(name))
    ensures !c.whitespace(name[0]) && name[0] != '.' && name[0] != '*' && name[0] != '['
  {
    assert IsPunctuation('.') && IsPunctuation('[') && IsPunctuation('*') && IsPunctuation('-') && IsPunctuation('_');
    assert rest != "" ==> !IsWord(c, rest[0]);
    assert IsWord(c, name[0]);
    IdentifierParses(c, name, rest);
  }

  lemma BracketReads(c: Platform, items: seq<Item>, comma: Option<string>, rest: string)
    requires Plain(c) && GoodTail(c, Listed(items, comma))
    ensures ParseBracketSelectors(c, TailText(Listed(items, comma), rest)) == Parsed(rest, Ok(Selectors(items)))
  {
    hide ParseBracketList, ListText;
    var body := ListText(items, Close(comma, rest));
    ListReads(c, items, comma, rest);
    assert ("[" + body)[1..] == body;
  }

  lemma TailReads(c: Platform, tail: Tail, rest: string)
    requires Plain(c) && GoodTail(c, tail) && EndsName(c, rest)
    ensures var t := TailText(tail, rest); t != "" && !c.whitespace(t[0]) && t[0] != '.' && (t[0] == '[' <==> tail.Listed?) && (t[0] == '*' <==> tail.Any?)
    ensures ParseRecursiveSelector(c, TailText(tail, rest)) == Parsed(rest, Ok(TailSelector(tail)))
  {
    hide ParseBracketSelectors, ParseIdentifier, ListText;
    var t := TailText(tail, rest);
    assert IsPunctuation('[') && IsPunctuation('*');
    match tail
    case Any => assert t[1..] == rest;
    case Named(name) =>
      NameReads(c, name, rest);
      assert t[0] == name[0];
    case Listed(items, comma) => BracketReads(c, items, comma, rest);
  }

  lemma SegmentReads(c: Platform, step: Step, rest: string)
    requires Plain(c) && GoodStep(c, step) && EndsName(c, rest)
    ensures var t := StepText(step, rest); t != "" && (t[0] == '.' || t[0] == '[') && ParseSegment(c, t) == Parsed(rest, Ok(StepSegment(c, step)))
  {
    hide ParseBracketSelectors, ParseIdentifier, ParseRecursiveSelector, ListText, TailText, GoodTail;
    assert IsPunctuation('.');
    match step
    case Bracket(_, items, comma) =>
      TailReads(c, Listed(items, comma), rest);
      BracketReads(c, items, comma, rest);
    case Dot(_, gap, tail) => DotReads(c, gap, tail, rest);
    case Dots(_, gap, gap2, tail) => DotsRead(c, gap, gap2, tail, rest);
  }

  lemma DotReads(c: Platform, gap: string, tail: Tail, rest: string)
    requires Plain(c) && Blank(c, gap) && GoodTail(c, tail) && !tail.Listed? && EndsName(c, rest)
    ensures ParseSegment(c, "." + (gap + TailText(tail, rest))) == Parsed(rest, Ok(PathSegment([TailSelector(tail)], false)))
  {
    hide ParseIdentifier;
    var t := TailText(tail, rest);
    assert ("." + (gap + t))[1..] == gap + t;
    TailReads(c, tail, rest);
    BlankSkipped(c, gap, t);
    assert SkipWhitespace(c, t) == t;
    if tail.Named? { NameReads(c, tail.name, rest); } else { assert t[1..] == rest; }
  }

  lemma DotsRead(c: Platform, gap: string, gap2: string, tail: Tail, rest: string)
    requires Plain(c) && Blank(c, gap) && Blank(c, gap2) && GoodTail(c, tail) && EndsName(c, rest)
    ensures ParseSegment(c, "." + (gap + ("." + (gap2 + TailText(tail, rest))))) == Parsed(rest, Ok(PathSegment([TailSelector(tail)], true)))
  {
    hide ParseRecursiveSelector, TailText, GoodTail, ParseIdentifier, ParseBracketSelectors;
    var t := TailText(tail, rest);
    var second := "." + (gap2 + t);
    assert ("." + (gap + second))[1..] == gap + second && second[1..] == gap2 + t;
    TailReads(c, tail, rest);
    BlankSkipped(c, gap, second);
    BlankSkipped(c, gap2, t);
    assert IsPunctuation('.') && SkipWhitespace(c, second) == second && SkipWhitespace(c, t) == t;
  }

  lemma PathStart(c: Platform, steps: seq<Step>, trail: string)
    requires Plain(c) && Blank(c, trail) && forall i :: 0 <= i < |steps| ==> GoodStep(c, steps[i])
    ensures EndsName(c, PathText(steps, trail))
  {
    if steps != [] && steps[0].lead == "" { assert PathText(steps, trail) == StepText(steps[0], PathText(steps[1..], trail)); }
  }

  lemma {:induction false} StepsRead(c: Platform, steps: seq<Step>, trail: string)
    requires Plain(c) && Blank(c, trail) && forall i :: 0 <= i < |steps| ==> GoodStep(c, steps[i])
    ensures ParseSegments(c, PathText(steps, trail)) == Parsed("", Ok(Segments(c, steps)))
    decreases |steps|
  {
    hide ParseSegment, StepText, GoodStep;
    if steps == [] {
      BlankSkipped(c, trail, "");
      assert trail + "" == trail;
    } else {
      var rest := PathText(steps[1..], trail);
      var t := StepText(steps[0], rest);
      PathStart(c, steps[1..], trail);
      SegmentReads(c, steps[0], rest);
      StepsRead(c, steps[1..], trail);
      assert Blank(c, steps[0].lead) by { LeadBlank(c, steps[0]); }
      BlankSkipped(c, steps[0].lead, t);
      assert IsPunctuation('.') && IsPunctuation('[') && SkipWhitespace(c, t) == t;
    }
  }

  lemma LeadBlank(c: Platform, step: Step)
    requires GoodStep(c, step)
    ensures Blank(c, step.lead)
  {
  }

  /**
   However a path without filters is written, with any number of selectors between brackets, in either
   quotes and with escapes, with white space wherever it may be, the parser reads what it says.
   */
  lemma SpellingParses(c: Platform, steps: seq<Step>, trail: string)
    requires Plain(c) && Blank(c, trail) && forall i :: 0 <= i < |steps| ==> GoodStep(c, steps[i])
    ensures ParsePath(c, "$" + PathText(steps, trail)) == Parsed("", Ok(Segments(c, steps)))
  {
    hide ParseSegments, PathText, GoodStep;
    var t := PathText(steps, trail);
    assert ("$" + t)[1..] == t;
    StepsRead(c, steps, trail);
  }

  /** A bracket of selectors between commas is one segment of all of them, in order. */
  lemma BracketListParses(c: Platform, items: seq<Item>)
    requires Plain(c) && GoodItems(c, items)
    ensures ParsePath(c, "$[" + ListText(items, "]")) == Parsed("", Ok([PathSegment(Selectors(items), false)]))
  {
    hide ParseSegment, ListText, GoodItems, ParseBracketSelectors;
    var step := Bracket("", items, None);
    assert Close(None, "") == "]" by { assert "" + ("]" + "") == "]"; }
    assert StepText(step, "") == "[" + ListText(items, "]");
    SegmentReads(c, step, "");
    hide StepText, GoodStep, StepSegment;
    var t := StepText(step, "");
    assert ("$" + t)[1..] == t && "$" + t == "$[" + ListText(items, "]");
    assert IsPunctuation('[') && SkipWhitespace(c, t) == t;
    assert ParseSegments(c, "") == Parsed("", Ok([]));
    assert [PathSegment(Selectors(items), false)] + [] == [PathSegment(Selectors(items), false)];
  }

  /** A filter is what the filter parser takes behind the question mark, perhaps between parentheses. */
  lemma FilterReads(c: Platform, gap: string, u: string, n: nat, f: Filter)
    requires Plain(c) && Blank(c, gap) && n <= |u| && c.filter(u) == (n, Ok(f))
    ensures u != "" && !c.whitespace(u[0]) && u[0] != '(' ==> ParseBracketSelector(c, "?" + (gap + u)) == Parsed(u[n..], Ok(FilterBy(f)))
    ensures Starts(SkipWhitespace(c, u[n..]), ')') ==>
              ParseBracketSelector(c, "?" + (gap + ("(" + u))) == Parsed(SkipWhitespace(c, u[n..])[1..], Ok(FilterBy(f)))
  {
    var t := "(" + u;
    assert ("?" + (gap + u))[1..] == gap + u && ("?" + (gap + t))[1..] == gap + t && t[1..] == u;
    BlankSkipped(c, gap, u);
    BlankSkipped(c, gap, t);
    assert IsPunctuation('(') && SkipWhitespace(c, t) == t;
  }

  // ---------------------------------------------------------------- printing

  /** The dot notation is for names of a letter or underscore and then letters, digits, underscores and hyphens. */
  ghost predicate Dotted(c: Platform, name: string) {
    && name != "" && (c.alphabetic(name[0]) || name[0] == '_')
    && forall i :: 0 < i < |name| ==> c.alphanumeric(name[i]) || name[i] == '_' || name[i] == '-'
  }

  /** How a path of one selector prints: names in single quotes unless they may stand behind a dot, no white space. */
  lemma PrintsAs(c: Platform, s: Selector, recursive: bool)
    requires !s.FilterBy?
    ensures var out, dots := PathToString(c, [PathSegment([s], recursive)]), if recursive then "$.." else "$";
            match s
            case Name(name) =>
              if Dotted(c, name) then out == (if recursive then "$.." else "$.") + name
              else exists t :: Spells('\'', t, name) && out == dots + "['" + t + "']"
            case Index(i) => out == dots + ("[" + ToString(i) + "]")
            case Slice(start, end, step) =>
              out == dots + ("[" + ((if start.Some? then ToString(start.value) else "") + ":" + (if end.Some? then ToString(end.value) else "")
                                     + (if step.Some? then ":" + ToString(step.value) else "")) + "]")
            case Wildcard => out == if recursive then "$..*" else "$.*"
  {
    hide ToString, Escaped, PathToString, SegmentToString, SelectorToSegment, SelectorToTail, SliceToString;
    OnePrinted(c, PathSegment([s], recursive));
    SinglePrinted(c, s, recursive);
    match s
    case Name(name) => NamePrinted(c, name, recursive);
    case Index(i) => IndexPrinted(c, i);
    case Slice(start, end, step) => SlicePrinted(c, start, end, step);
    case Wildcard => WildcardPrinted(c);
  }

  lemma SinglePrinted(c: Platform, s: Selector, recursive: bool)
    ensures SegmentToString(c, PathSegment([s], recursive)) == if recursive then ".." + SelectorToTail(c, s) else SelectorToSegment(c, s)
  {
    hide SelectorToSegment, SelectorToTail;
  }

  lemma NamePrinted(c: Platform, name: string, recursive: bool)
    ensures var t := if recursive then ".." + SelectorToTail(c, Name(name)) else SelectorToSegment(c, Name(name));
            if Dotted(c, name) then "$" + t == (if recursive then "$.." else "$.") + name
            else Spells('\'', Escaped(name), name) && "$" + t == (if recursive then "$.." else "$") + "['" + Escaped(name) + "']"
  {
    hide Escaped;
    EscapedSpells(name);
    assert Dotted(c, name) <==> IsIdentifier(c, name);
    var q := Bracketed("'" + Escaped(name) + "'");
    assert "$" + q == "$" + "['" + Escaped(name) + "']";
    assert "$" + (".." + q) == "$.." + "['" + Escaped(name) + "']";
  }

  lemma IndexPrinted(c: Platform, i: ISize)
    ensures SelectorToSegment(c, Index(i)) == SelectorToTail(c, Index(i)) == "[" + ToString(i) + "]"
  {
    hide ToString;
  }

  lemma SlicePrinted(c: Platform, start: Option<ISize>, end: Option<ISize>, step: Option<ISize>)
    ensures var t := SelectorToSegment(c, Slice(start, end, step));
            && t == SelectorToTail(c, Slice(start, end, step))
            && t == "[" + ((if start.Some? then ToString(start.value) else "") + ":" + (if end.Some? then ToString(end.value) else "")
                            + (if step.Some? then ":" + ToString(step.value) else "")) + "]"
  {
    hide ToString;
  }

  lemma WildcardPrinted(c: Platform)
    ensures SelectorToSegment(c, Wildcard) == ".*" && SelectorToTail(c, Wildcard) == "*"
  {
  }

  lemma OnePrinted(c: Platform, segment: PathSegment)
    ensures PathToString(c, [segment]) == "$" + SegmentToString(c, segment)
  {
    hide SegmentToString;
    assert [segment][1..] == [] && SegmentsToString(c, []) == "";
    assert SegmentsToString(c, [segment]) == SegmentToString(c, segment) + "";
  }

  lemma {:induction false} EscapedSpells(name: string)
    ensures Spells('\'', Escaped(name), name)
  {
    if name != "" {
      EscapedSpells(name[1..]);
      var head, t := EscapedChar(name[0]), Escaped(name);
      assert t == head + Escaped(name[1..]) && t[|head|..] == Escaped(name[1..]);
    }
  }
}
