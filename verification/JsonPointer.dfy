/** JSON Pointer: crates/json-joy-json-pointer/src/util.rs, find.rs and get.rs. */
module JsonPointer {
  import opened Common
  import opened Json
  import JP = JsonPath

  // ---------------------------------------------------------------- text

  /** `s.replace(a b, with)`, left to right. */
  function Replace(s: string, a: char, b: char, with: string): string {
    if |s| < 2 then s
    else if s[0] == a && s[1] == b then with + Replace(s[2..], a, b, with)
    else [s[0]] + Replace(s[1..], a, b, with)
  }

  function ReplaceChar(s: string, a: char, with: string): string {
    if s == "" then "" else (if s[0] == a then with else [s[0]]) + ReplaceChar(s[1..], a, with)
  }

  function UnescapeComponent(c: string): string {
    if '~' !in c then c else Replace(Replace(c, '~', '1', "/"), '~', '0', "~")
  }

  function EscapeComponent(c: string): string {
    if '/' !in c && '~' !in c then c else ReplaceChar(ReplaceChar(c, '~', "~0"), '/', "~1")
  }

  /** What is between the slashes. */
  function Split(s: string): (r: seq<string>)
    ensures r != []
  {
    if s == "" then [""]
    else
      var more := Split(s[1..]);
      if s[0] == '/' then [""] + more else [[s[0]] + more[0]] + more[1..]
  }

  function UnescapeAll(parts: seq<string>): seq<string> {
    if parts == [] then [] else [UnescapeComponent(parts[0])] + UnescapeAll(parts[1..])
  }

  /** None where the source panics: the first character, if any, is dropped as one byte. */
  function Parse(pointer: string): Option<seq<string>> {
    if pointer == "" then Some([])
    else if pointer[0] >= 128 as char then None
    else Some(UnescapeAll(Split(pointer[1..])))
  }

  function Format(path: seq<string>): string {
    if path == [] then "" else "/" + EscapeComponent(path[0]) + Format(path[1..])
  }

  // ---------------------------------------------------------------- one pass

  function Unescaped(s: string): string {
    if |s| < 2 then s
    else if s[0] == '~' && s[1] == '1' then "/" + Unescaped(s[2..])
    else if s[0] == '~' && s[1] == '0' then "~" + Unescaped(s[2..])
    else [s[0]] + Unescaped(s[1..])
  }

  function Escaped(s: string): string {
    if s == "" then ""
    else (if s[0] == '~' then "~0" else if s[0] == '/' then "~1" else [s[0]]) + Escaped(s[1..])
  }

  lemma {:induction false} UnescapedPlain(s: string)
    requires '~' !in s
    ensures Unescaped(s) == s
  {
    if |s| >= 2 { UnescapedPlain(s[1..]); }
  }

  /** Replacing everywhere twice, `~1` before `~0`, is one pass over the text, well-formed or not. */
  lemma {:induction false} TwoPassesUnescape(s: string)
    ensures Replace(Replace(s, '~', '1', "/"), '~', '0', "~") == Unescaped(s)
    decreases |s|
  {
    if |s| >= 2 {
      if s[0] == '~' && s[1] == '1' {
        TwoPassesUnescape(s[2..]);
        SecondPass('/', Replace(s[2..], '~', '1', "/"));
      } else if s[0] == '~' && s[1] == '0' {
        TwoPassesUnescape(s[2..]);
        FirstPassPlain('0', s[2..]);
        assert s[1..] == ['0'] + s[2..];
        var r := Replace(s[2..], '~', '1', "/");
        assert (['~'] + (['0'] + r))[2..] == r;
      } else {
        TwoPassesUnescape(s[1..]);
        var r := Replace(s[1..], '~', '1', "/");
        FirstOf(s[1..]);
        assert (['~'] + r)[1..] == r;
        if s[0] != '~' { SecondPass(s[0], r); }
      }
    }
  }

  lemma SecondPass(c: char, r: string)
    requires c != '~'
    ensures Replace([c] + r, '~', '0', "~") == [c] + Replace(r, '~', '0', "~")
  {
    assert ([c] + r)[1..] == r;
  }

  lemma FirstPassPlain(c: char, r: string)
    requires c != '~'
    ensures Replace([c] + r, '~', '1', "/") == [c] + Replace(r, '~', '1', "/")
  {
    assert ([c] + r)[1..] == r;
  }

  /** The first pass puts no `0` in front that was not there. */
  lemma FirstOf(s: string)
    requires s != ""
    ensures var r := Replace(s, '~', '1', "/"); r != "" && (r[0] == s[0] || (s[0] == '~' && r[0] == '/'))
  {
  }

  lemma ReplaceFirst(c: char, r: string, a: char, with: string)
    ensures ReplaceChar([c] + r, a, with) == (if c == a then with else [c]) + ReplaceChar(r, a, with)
  {
    assert ([c] + r)[1..] == r;
  }

  lemma {:induction false} TwoPassesEscape(s: string)
    ensures ReplaceChar(ReplaceChar(s, '~', "~0"), '/', "~1") == Escaped(s)
  {
    if s != "" {
      TwoPassesEscape(s[1..]);
      var r := ReplaceChar(s[1..], '~', "~0");
      SecondEscape(s[0], r);
    }
  }

  lemma SecondEscape(c: char, r: string)
    ensures ReplaceChar((if c == '~' then "~0" else [c]) + r, '/', "~1")
         == (if c == '~' then "~0" else if c == '/' then "~1" else [c]) + ReplaceChar(r, '/', "~1")
  {
    hide ReplaceChar;
    if c == '~' {
      assert "~0" + r == ['~'] + (['0'] + r);
      ReplaceFirst('~', ['0'] + r, '/', "~1");
      ReplaceFirst('0', r, '/', "~1");
      assert ['~'] + (['0'] + ReplaceChar(r, '/', "~1")) == "~0" + ReplaceChar(r, '/', "~1");
    } else {
      ReplaceFirst(c, r, '/', "~1");
    }
  }

  lemma {:induction false} EscapedPlain(s: string)
    requires '/' !in s && '~' !in s
    ensures Escaped(s) == s
  {
    if s != "" { EscapedPlain(s[1..]); }
  }

  lemma OnePass(c: string)
    ensures UnescapeComponent(c) == Unescaped(c) && EscapeComponent(c) == Escaped(c)
  {
    if '~' !in c { UnescapedPlain(c); } else { TwoPassesUnescape(c); }
    if '/' !in c && '~' !in c { EscapedPlain(c); } else { TwoPassesEscape(c); }
  }

  // ---------------------------------------------------------------- components

  /** Section 3 of RFC 6901: every `~` begins `~0` or `~1`. */
  predicate Tildes(s: string) {
    if s == "" then true
    else if s[0] == '~' then |s| > 1 && (s[1] == '0' || s[1] == '1') && Tildes(s[2..])
    else Tildes(s[1..])
  }

  lemma {:induction false} Unescapes(s: string)
    ensures Unescaped(Escaped(s)) == s
    ensures '/' !in Escaped(s) && Tildes(Escaped(s))
  {
    if s != "" {
      Unescapes(s[1..]);
      var r := Escaped(s[1..]);
      if s[0] == '~' || s[0] == '/' {
        var d := if s[0] == '~' then '0' else '1';
        assert (['~', d] + r)[2..] == r;
      } else {
        assert ([s[0]] + r)[1..] == r;
        if r == "" { assert s[1..] == "" by { EscapedLength(s[1..]); } }
      }
    }
  }

  lemma {:induction false} EscapedLength(s: string)
    ensures |Escaped(s)| >= |s|
  {
    if s != "" { EscapedLength(s[1..]); }
  }

  lemma {:induction false} Escapes(s: string)
    requires Tildes(s) && '/' !in s
    ensures Escaped(Unescaped(s)) == s
    decreases |s|
  {
    if |s| >= 2 {
      if s[0] == '~' {
        Escapes(s[2..]);
        var r := Unescaped(s[2..]);
        assert s == [s[0], s[1]] + s[2..];
        assert ("/" + r)[1..] == r && ("~" + r)[1..] == r;
      } else {
        Escapes(s[1..]);
        assert ([s[0]] + Unescaped(s[1..]))[1..] == Unescaped(s[1..]);
      }
    }
  }

  // ---------------------------------------------------------------- splitting

  lemma {:induction false} SplitPlain(a: string, rest: string)
    requires '/' !in a
    ensures Split(a) == [a] && Split(a + "/" + rest) == [a] + Split(rest)
  {
    if a == "" {
      assert a + "/" + rest == "/" + rest && ("/" + rest)[1..] == rest;
    } else {
      SplitPlain(a[1..], rest);
      assert (a + "/" + rest)[1..] == a[1..] + "/" + rest;
      assert [a[0]] + a[1..] == a;
    }
  }

  /** The parts, each behind a slash. */
  function Slashed(parts: seq<string>): string {
    if parts == [] then "" else "/" + parts[0] + Slashed(parts[1..])
  }

  lemma {:induction false} SplitJoins(s: string)
    ensures Slashed(Split(s)) == "/" + s
    ensures forall i :: 0 <= i < |Split(s)| ==> '/' !in Split(s)[i]
    decreases |s|
  {
    if s != "" {
      SplitJoins(s[1..]);
      var more := Split(s[1..]);
      if s[0] == '/' {
        assert ([""] + more)[1..] == more;
        assert "/" + "" + Slashed(more) == "/" + s;
      } else {
        assert ([[s[0]] + more[0]] + more[1..])[1..] == more[1..];
        Shuffle(s[0], more[0], Slashed(more[1..]), s[1..]);
        assert [s[0]] + s[1..] == s;
      }
    }
  }

  lemma Shuffle(c: char, head: string, rest: string, tail: string)
    requires "/" + head + rest == "/" + tail
    ensures "/" + ([c] + head) + rest == "/" + ([c] + tail)
  {
    assert ("/" + head + rest)[1..] == head + rest;
    assert ("/" + tail)[1..] == tail;
  }

  lemma {:induction false} HeadTildes(s: string)
    requires Tildes(s) && s != "" && s[0] != '/'
    ensures var t := Split(s); Tildes(t[0]) && (forall i :: 1 <= i < |t| ==> Tildes(t[i]))
    decreases |s|, 0
  {
    if s[0] == '~' {
      var u := s[2..];
      assert s[1..][0] == s[1] && s[1..][1..] == u;
      var t := Split(u);
      assert Split(s)[0] == [s[0]] + ([s[1]] + t[0]);
      assert ([s[0]] + ([s[1]] + t[0]))[2..] == t[0];
      PartsTildes(u);
    } else {
      PartsTildes(s[1..]);
      assert ([s[0]] + Split(s[1..])[0])[1..] == Split(s[1..])[0];
    }
  }

  lemma {:induction false} PartsTildes(s: string)
    requires Tildes(s)
    ensures forall i :: 0 <= i < |Split(s)| ==> Tildes(Split(s)[i])
    decreases |s|, 1
  {
    if s != "" {
      if s[0] == '/' {
        PartsTildes(s[1..]);
      } else {
        HeadTildes(s);
      }
    }
  }

  // ---------------------------------------------------------------- pointers

  ghost predicate ValidPointer(p: string) {
    p == "" || (p[0] == '/' && Tildes(p))
  }

  lemma ComponentBack(c: string)
    ensures '/' !in EscapeComponent(c) && UnescapeComponent(EscapeComponent(c)) == c
  {
    OnePass(c);
    Unescapes(c);
    OnePass(Escaped(c));
  }

  lemma UnescapeFirst(a: string, parts: seq<string>)
    ensures UnescapeAll([a] + parts) == [UnescapeComponent(a)] + UnescapeAll(parts)
  {
    assert ([a] + parts)[1..] == parts;
  }

  lemma {:induction false} SplitFormat(path: seq<string>)
    requires path != []
    ensures Format(path) != "" && Format(path)[0] == '/' && UnescapeAll(Split(Format(path)[1..])) == path
  {
    hide EscapeComponent, UnescapeComponent, Split, UnescapeAll;
    var a, tail := EscapeComponent(path[0]), Format(path[1..]);
    ComponentBack(path[0]);
    assert Format(path)[1..] == a + tail;
    if |path| == 1 {
      assert a + tail == a && [a] + [] == [a];
      SplitPlain(a, "");
      UnescapeFirst(a, []);
      NothingToUnescape();
      assert path == [path[0]] + [];
    } else {
      SplitFormat(path[1..]);
      var rest := tail[1..];
      assert a + tail == a + "/" + rest;
      SplitPlain(a, rest);
      UnescapeFirst(a, Split(rest));
      assert path == [path[0]] + path[1..];
    }
  }

  lemma NothingToUnescape()
    ensures UnescapeAll([]) == []
  {
  }

  /** Any path comes back from its pointer. */
  lemma ParseFormat(path: seq<string>)
    ensures Parse(Format(path)) == Some(path)
  {
    if path != [] { SplitFormat(path); }
  }

  lemma {:induction false} TildesAppend(a: string, b: string)
    requires Tildes(a) && Tildes(b)
    ensures Tildes(a + b)
    decreases |a|
  {
    if a == "" {
      assert a + b == b;
    } else {
      var k := if a[0] == '~' then 2 else 1;
      assert (a + b)[k..] == a[k..] + b;
      TildesAppend(a[k..], b);
    }
  }

  lemma {:induction false} FormatIsValid(path: seq<string>)
    ensures ValidPointer(Format(path)) && Tildes(Format(path))
  {
    if path != [] {
      FormatIsValid(path[1..]);
      OnePass(path[0]);
      Unescapes(path[0]);
      var a := EscapeComponent(path[0]);
      assert ("/" + a)[1..] == a;
      TildesAppend("/" + a, Format(path[1..]));
    }
  }

  lemma {:induction false} FormatUnescaped(parts: seq<string>)
    requires forall i :: 0 <= i < |parts| ==> Tildes(parts[i]) && '/' !in parts[i]
    ensures Format(UnescapeAll(parts)) == Slashed(parts)
  {
    if parts != [] {
      FormatUnescaped(parts[1..]);
      OnePass(parts[0]);
      OnePass(UnescapeComponent(parts[0]));
      Escapes(parts[0]);
      assert UnescapeAll(parts)[1..] == UnescapeAll(parts[1..]);
    }
  }

  /** A pointer comes back from its path exactly when section 3 of RFC 6901 allows it. */
  lemma FormatParse(p: string)
    requires Parse(p).Some?
    ensures Format(Parse(p).value) == p <==> ValidPointer(p)
  {
    if p != "" {
      FormatIsValid(Parse(p).value);
      if ValidPointer(p) {
        var s := p[1..];
        SplitJoins(s);
        PartsTildes(s);
        FormatUnescaped(Split(s));
        assert p == "/" + s;
      }
    }
  }

  method FormatJsonPointer(path: seq<string>) returns (out: string)
    ensures out == Format(path)
  {
    if path == [] { return ""; }
    out := "";
    var i := 0;
    assert path[0..] == path && "" + Format(path) == Format(path);
    while i < |path|
      invariant 0 <= i <= |path| && out + Format(path[i..]) == Format(path)
    {
      assert path[i..][0] == path[i] && path[i..][1..] == path[i + 1..];
      ConcatAssoc(out, "/" + EscapeComponent(path[i]), Format(path[i + 1..]));
      ConcatAssoc(out, "/", EscapeComponent(path[i]));
      out := out + "/";
      out := out + EscapeComponent(path[i]);
      i := i + 1;
    }
    assert out + "" == out;
  }

  method IsChild(parent: seq<string>, child: seq<string>) returns (r: bool)
    ensures r <==> parent < child
  {
    if |parent| >= |child| { return false; }
    for i := 0 to |parent|
      invariant parent[..i] == child[..i]
    {
      if parent[i] != child[i] { return false; }
      assert parent[..i + 1] == parent[..i] + [parent[i]] && child[..i + 1] == child[..i] + [child[i]];
    }
    assert parent[..|parent|] == parent;
    r := true;
  }

  // ---------------------------------------------------------------- looking up

  datatype ReferenceKey = StringKey(name: string) | IndexKey(index: nat)

  datatype Reference = Reference(val: Option<Json>, obj: Option<Json>, key: Option<ReferenceKey>)

  datatype PointerError = InvalidIndex | NotFound

  predicate AllDigits(s: string) {
    forall i :: 0 <= i < |s| ==> JP.IsDigit(s[i])
  }

  predicate IsValidIndex(s: string) {
    s != "" && !(|s| > 1 && s[0] == '0') && AllDigits(s)
  }

  /** `s.parse::<usize>()`, which takes a plus sign and leading zeros. */
  function ParseUsize(s: string): Option<nat> {
    var digits := if s != "" && s[0] == '+' then s[1..] else s;
    if digits == "" || !AllDigits(digits) || JP.DigitsValue(digits) >= 0x1_0000_0000_0000_0000 then None
    else Some(JP.DigitsValue(digits))
  }

  /** One step of `find`: the key it makes of a string, and what is there. */
  function FindStep(v: Json, s: string): Result<(ReferenceKey, Option<Json>), PointerError> {
    match v
    case Array(items) =>
      if s == "-" then Ok((IndexKey(|items|), None))
      else if !IsValidIndex(s) || ParseUsize(s).None? then Err(InvalidIndex)
      else
        var i := ParseUsize(s).value;
        Ok((IndexKey(i), if i < |items| then Some(items[i]) else None))
    case Object(members) => Ok((StringKey(s), Lookup(members, s)))
    case _ => Err(NotFound)
  }

  function FindSpec(v: Json, path: seq<string>): Result<Reference, PointerError> {
    if path == [] then Ok(Reference(Some(v), None, None)) else FindIn(v, path)
  }

  function FindIn(v: Json, path: seq<string>): Result<Reference, PointerError>
    requires path != []
    decreases |path|
  {
    match FindStep(v, path[0])
    case Err(e) => Err(e)
    case Ok((k, there)) =>
      if |path| == 1 then Ok(Reference(there, Some(v), Some(k)))
      else if there.None? then Err(NotFound)
      else FindIn(there.value, path[1..])
  }

  function GetStep(v: Json, s: string): Option<Json> {
    match v
    case Array(items) =>
      if s == "-" then None else
      (match ParseUsize(s) case Some(i) => if i < |items| then Some(items[i]) else None case None => None)
    case Object(members) => Lookup(members, s)
    case _ => None
  }

  function GetSpec(v: Json, path: seq<string>): Option<Json> {
    if path == [] then Some(v) else
    match GetStep(v, path[0])
    case Some(w) => GetSpec(w, path[1..])
    case None => None
  }

  method Find(v: Json, path: seq<string>) returns (r: Result<Reference, PointerError>)
    ensures r == FindSpec(v, path)
  {
    if path == [] { return Ok(Reference(Some(v), None, None)); }
    var current := v;
    var obj: Option<Json> := None;
    var key: Option<ReferenceKey> := None;
    var i := 0;
    assert path[0..] == path;
    while i < |path|
      invariant 0 <= i <= |path|
      invariant i < |path| ==> FindSpec(v, path) == FindIn(current, path[i..])
      invariant i == |path| ==> FindSpec(v, path) == Ok(Reference(Some(current), obj, key))
    {
      var isLast := i == |path| - 1;
      assert path[i..][0] == path[i] && path[i..][1..] == path[i + 1..];
      obj := Some(current);
      if current.Array? {
        var idx;
        if path[i] == "-" {
          idx := |current.items|;
        } else {
          if !IsValidIndex(path[i]) { return Err(InvalidIndex); }
          var parsed := ParseUsize(path[i]);
          if parsed.None? { return Err(InvalidIndex); }
          idx := parsed.value;
        }
        key := Some(IndexKey(idx));
        if idx >= |current.items| {
          if !isLast { return Err(NotFound); }
          return Ok(Reference(None, obj, key));
        }
        current := current.items[idx];
      } else if current.Object? {
        key := Some(StringKey(path[i]));
        var there := Lookup(current.members, path[i]);
        if there.None? {
          if !isLast { return Err(NotFound); }
          return Ok(Reference(None, obj, key));
        }
        current := there.value;
      } else {
        return Err(NotFound);
      }
      i := i + 1;
    }
    r := Ok(Reference(Some(current), obj, key));
  }

  method Get(v: Json, path: seq<string>) returns (r: Option<Json>)
    ensures r == GetSpec(v, path)
  {
    var current := v;
    var i := 0;
    assert path[0..] == path;
    while i < |path|
      invariant 0 <= i <= |path| && GetSpec(v, path) == GetSpec(current, path[i..])
    {
      assert path[i..][0] == path[i] && path[i..][1..] == path[i + 1..];
      if current.Array? {
        if path[i] == "-" { return None; }
        var idx := ParseUsize(path[i]);
        if idx.None? || idx.value >= |current.items| { return None; }
        current := current.items[idx.value];
      } else if current.Object? {
        var there := Lookup(current.members, path[i]);
        if there.None? { return None; }
        current := there.value;
      } else {
        return None;
      }
      i := i + 1;
    }
    r := Some(current);
  }

  /** Every step into an array along the path is written as the RFC asks: digits, and no leading zero. */
  ghost predicate CanonicalIndices(v: Json, path: seq<string>) {
    if path == [] then true else
    && (v.Array? ==> IsValidIndex(path[0]))
    && (GetStep(v, path[0]).Some? ==> CanonicalIndices(GetStep(v, path[0]).value, path[1..]))
  }

  lemma StepsAgree(v: Json, s: string)
    ensures FindStep(v, s).Ok? && FindStep(v, s).value.1.Some? ==> GetStep(v, s) == FindStep(v, s).value.1
    ensures GetStep(v, s).Some? ==>
              (FindStep(v, s).Ok? && FindStep(v, s).value.1 == GetStep(v, s) <==> (v.Array? ==> IsValidIndex(s)))
  {
  }

  /** Where `find` returns a value, `get` returns the same one. */
  lemma {:induction false} FindThenGet(v: Json, path: seq<string>)
    requires FindSpec(v, path).Ok? && FindSpec(v, path).value.val.Some?
    ensures GetSpec(v, path) == FindSpec(v, path).value.val
    decreases |path|
  {
    if path != [] {
      StepsAgree(v, path[0]);
      var there := FindStep(v, path[0]).value.1;
      if |path| == 1 {
        assert path[1..] == [];
      } else {
        FindThenGet(there.value, path[1..]);
      }
    }
  }

  /** Where `get` returns a value, `find` does too, exactly when the path has no other than canonical indices. */
  lemma {:induction false} GetThenFind(v: Json, path: seq<string>)
    requires GetSpec(v, path).Some?
    ensures (FindSpec(v, path).Ok? && FindSpec(v, path).value.val == GetSpec(v, path)) <==> CanonicalIndices(v, path)
    decreases |path|
  {
    if path != [] {
      StepsAgree(v, path[0]);
      var w := GetStep(v, path[0]).value;
      if |path| == 1 {
        assert path[1..] == [];
      } else {
        GetThenFind(w, path[1..]);
      }
    }
  }

  function ComponentOf(k: ReferenceKey): Component {
    match k
    case StringKey(s) => Key(s)
    case IndexKey(i) => At(i)
  }

  /** What `find` returns for a path that is not empty: the container the path without its last step leads to, and what the key leads to in it. */
  lemma {:induction false} ReferenceIsPlace(v: Json, path: seq<string>)
    requires path != [] && FindSpec(v, path).Ok?
    ensures var r := FindSpec(v, path).value;
            && r.obj.Some? && r.key.Some? && r.val == Step(r.obj.value, ComponentOf(r.key.value))
            && (r.obj.value.Array? || r.obj.value.Object?)
            && FindSpec(v, path[..|path| - 1]).Ok? && FindSpec(v, path[..|path| - 1]).value.val == r.obj
    decreases |path|
  {
    var front := path[..|path| - 1];
    if |path| > 1 {
      var there := FindStep(v, path[0]).value.1;
      ReferenceIsPlace(there.value, path[1..]);
      assert path[1..][..|path[1..]| - 1] == front[1..];
      if |front| == 1 { assert front[1..] == []; }
    }
  }
}
