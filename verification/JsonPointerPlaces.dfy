/** What a pointer's tokens mean to `find` and `get`, told of the document itself. */
module JsonPointerPlaces {
  import opened Common
  import opened Json
  import JP = JsonPath
  import opened JsonPointer
  import JsonPathRoundTrip

  /** Positions are machine words. */
  const USIZE: nat := 0x1_0000_0000_0000_0000

  // ---------------------------------------------------------------- numerals

  function Zeros(k: nat): string {
    if k == 0 then "" else Zeros(k - 1) + "0"
  }

  lemma {:induction false} ZerosDigits(k: nat)
    ensures |Zeros(k)| == k && AllDigits(Zeros(k)) && JP.DigitsValue(Zeros(k)) == 0
    ensures k > 0 ==> Zeros(k)[0] == '0'
  {
    if k > 0 {
      ZerosDigits(k - 1);
      assert Zeros(k)[..k - 1] == Zeros(k - 1);
    }
  }

  lemma {:induction false} ZerosInFront(k: nat, t: string)
    requires AllDigits(t)
    ensures AllDigits(Zeros(k) + t) && JP.DigitsValue(Zeros(k) + t) == JP.DigitsValue(t)
    decreases |t|
  {
    ZerosDigits(k);
    var all := Zeros(k) + t;
    if t == "" {
      assert all == Zeros(k);
    } else {
      ZerosInFront(k, t[..|t| - 1]);
      assert all[..|all| - 1] == Zeros(k) + t[..|t| - 1];
    }
  }

  lemma {:induction false} DecimalStart(n: nat)
    ensures n > 0 ==> JP.Decimal(n)[0] != '0'
    ensures n == 0 ==> JP.Decimal(n) == "0"
  {
    if n >= 10 { DecimalStart(n / 10); }
  }

  lemma LastDigit(n: nat, last: nat)
    requires last < 10
    ensures (10 * n + last) / 10 == n && (10 * n + last) % 10 == last
  {
  }

  /** Every string of digits is a numeral behind zeros. */
  lemma {:induction false} DigitsAre(t: string) returns (k: nat)
    requires t != "" && AllDigits(t)
    ensures t == Zeros(k) + JP.Decimal(JP.DigitsValue(t))
    decreases |t|
  {
    var front, last := t[..|t| - 1], JP.DigitValue(t[|t| - 1]);
    assert JP.Digit(last) == t[|t| - 1] && t == front + [JP.Digit(last)];
    if front == "" {
      k := 0;
      assert JP.DigitsValue(t) == last && Zeros(0) + JP.Decimal(last) == [JP.Digit(last)];
    } else {
      k := DigitsAre(front);
      var n := JP.DigitsValue(front);
      assert JP.DigitsValue(t) == 10 * n + last;
      LastDigit(n, last);
      if n == 0 {
        assert JP.Decimal(0) == "0" && Zeros(k + 1) == Zeros(k) + "0";
        assert t == Zeros(k + 1) + [JP.Digit(last)];
        k := k + 1;
      } else {
        ConcatAssoc(Zeros(k), JP.Decimal(n), [JP.Digit(last)]);
      }
    }
  }

  // ---------------------------------------------------------------- one step into an array

  function Spelling(plus: bool, k: nat, i: nat): string {
    (if plus then "+" else "") + (Zeros(k) + JP.Decimal(i))
  }

  /** What `s` has to be for `get` to take it as the position `i`: decimal, perhaps behind zeros, perhaps behind a plus sign. */
  ghost predicate Denotes(s: string, i: nat) {
    exists plus: bool, k: nat :: s == Spelling(plus, k, i)
  }

  lemma ParsedIs(s: string, i: nat)
    ensures ParseUsize(s) == Some(i) <==> i < USIZE && Denotes(s, i)
  {
    hide JP.Decimal, JP.DigitsValue, Zeros;
    if ParseUsize(s) == Some(i) {
      var plus := s != "" && s[0] == '+';
      var digits := if plus then s[1..] else s;
      var k := DigitsAre(digits);
      assert s == (if plus then "+" else "") + digits == Spelling(plus, k, i);
    }
    if i < USIZE && Denotes(s, i) {
      var plus: bool, k: nat :| s == Spelling(plus, k, i);
      var digits := Zeros(k) + JP.Decimal(i);
      JsonPathRoundTrip.DecimalValue(i);
      ZerosInFront(k, JP.Decimal(i));
      assert JP.IsDigit(digits[0]);
      assert s == (if plus then "+" else "") + digits;
      assert (if plus then s[1..] else s) == digits;
    }
  }

  lemma ValidIs(s: string, i: nat)
    requires Denotes(s, i)
    ensures IsValidIndex(s) <==> s == JP.Decimal(i)
  {
    var plus: bool, k: nat :| s == Spelling(plus, k, i);
    ZerosDigits(k);
    DecimalStart(i);
    hide JP.Decimal, Zeros;
    var d := JP.Decimal(i);
    if plus {
      assert s[0] == '+';
      assert !JP.IsDigit(s[0]) && !JP.IsDigit('+');
      assert JP.IsDigit(d[0]);
    } else {
      assert s == Zeros(k) + d;
      if k > 0 {
        assert s[0] == '0' && |s| > 1;
        assert |s| == k + |d|;
      } else {
        assert s == d;
      }
    }
  }

  /**
   `get` takes a position in decimal, also behind zeros and behind a plus sign, and nothing else, and
   gives the element there.
   */
  lemma GetsElement(items: seq<Json>, s: string, w: Json)
    ensures GetSpec(Array(items), [s]) == Some(w) <==> exists i: nat :: i < |items| && i < USIZE && Denotes(s, i) && items[i] == w
  {
    hide ParseUsize, Denotes;
    assert [s][1..] == [];
    if GetSpec(Array(items), [s]) == Some(w) {
      ParsedIs(s, ParseUsize(s).value);
    }
    if i: nat :| i < |items| && i < USIZE && Denotes(s, i) && items[i] == w {
      ParsedIs(s, i);
      DashIsNone();
      assert GetStep(Array(items), s) == Some(items[i]);
    }
  }

  lemma DashIsNone()
    ensures ParseUsize("-").None?
  {
    assert !JP.IsDigit("-"[0]);
  }

  /**
   `find` takes a position in decimal with no leading zero and gives it as key, with the element there
   if there is one; a dash is the position behind the last; anything else is refused.
   */
  lemma FindsElement(items: seq<Json>, s: string)
    ensures forall i: nat :: i < USIZE && s == JP.Decimal(i) ==>
              FindSpec(Array(items), [s]) == Ok(Reference(if i < |items| then Some(items[i]) else None, Some(Array(items)), Some(IndexKey(i))))
    ensures s == "-" ==> FindSpec(Array(items), [s]) == Ok(Reference(None, Some(Array(items)), Some(IndexKey(|items|))))
    ensures s != "-" && (forall i: nat :: i < USIZE ==> s != JP.Decimal(i)) ==> FindSpec(Array(items), [s]) == Err(InvalidIndex)
  {
    hide ParseUsize, IsValidIndex, JP.Decimal;
    DashIsNone();
    forall i: nat | i < USIZE && s == JP.Decimal(i)
      ensures s != "-" && IsValidIndex(s) && ParseUsize(s) == Some(i)
    {
      DecimalDenotes(i);
      ParsedIs(s, i);
      ValidIs(s, i);
    }
    if s != "-" && IsValidIndex(s) && ParseUsize(s).Some? {
      var i := ParseUsize(s).value;
      ParsedIs(s, i);
      ValidIs(s, i);
    }
  }

  lemma DecimalDenotes(i: nat)
    ensures Denotes(JP.Decimal(i), i)
  {
    assert JP.Decimal(i) == Spelling(false, 0, i);
  }

  // ---------------------------------------------------------------- any place

  function Token(c: Component): string {
    match c
    case Key(key) => key
    case At(i) => JP.Decimal(i)
  }

  function Tokens(p: Path): (r: seq<string>)
    ensures |r| == |p|
  {
    if p == [] then [] else [Token(p[0])] + Tokens(p[1..])
  }

  function ReferenceKeyOf(c: Component): ReferenceKey {
    match c
    case Key(key) => StringKey(key)
    case At(i) => IndexKey(i)
  }

  ghost predicate WordIndices(p: Path) {
    forall k :: 0 <= k < |p| && p[k].At? ==> p[k].index < USIZE
  }

  lemma TokenSteps(v: Json, c: Component)
    requires Step(v, c).Some? && (c.At? ==> c.index < USIZE)
    ensures GetStep(v, Token(c)) == Step(v, c) && FindStep(v, Token(c)) == Ok((ReferenceKeyOf(c), Step(v, c)))
  {
    hide ParseUsize, IsValidIndex, JP.Decimal, Lookup;
    if c.At? {
      var s := JP.Decimal(c.index);
      DashIsNone();
      DecimalDenotes(c.index);
      ParsedIs(s, c.index);
      ValidIs(s, c.index);
    }
  }

  /** Whatever a path leads to, `get` and `find` find under its tokens, and `find` says in what and under which key. */
  lemma {:induction false} PlaceIsFound(v: Json, p: Path)
    requires Follow(v, p).Some? && WordIndices(p)
    ensures GetSpec(v, Tokens(p)) == Follow(v, p)
    ensures p == [] ==> FindSpec(v, Tokens(p)) == Ok(Reference(Some(v), None, None))
    ensures p != [] ==> FindSpec(v, Tokens(p)) == Ok(Reference(Follow(v, p), Follow(v, p[..|p| - 1]), Some(ReferenceKeyOf(p[|p| - 1]))))
    decreases |p|
  {
    hide FindStep, GetStep, Step;
    if p != [] {
      var w := Step(v, p[0]).value;
      TokenSteps(v, p[0]);
      PlaceIsFound(w, p[1..]);
      assert Tokens(p)[1..] == Tokens(p[1..]);
      if |p| == 1 {
        assert p[..0] == [];
      } else {
        assert p[..|p| - 1][0] == p[0] && p[..|p| - 1][1..] == p[1..][..|p| - 2];
      }
    }
  }
}
