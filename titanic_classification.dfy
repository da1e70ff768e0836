/** The cabin parser of the Titanic example: it reads a passenger's `Cabin`
    field, such as "C85" or "B57 B59 B63", and returns the deck letter (the
    "floor") and the cabin number of the first cabin it can read. */
module TitanicClassification {
  import PyString

  datatype Option<T> = None | Some(value: T)

  /** A value of the `Cabin` column. pandas reads a missing cabin as the float
      NaN, which is not a string. */
  datatype Cabin = Str(s: string) | NotAString

  /** The pair the parser returns. `number == None` stands for NaN. */
  datatype FloorAndNumber = FloorAndNumber(floor: string, number: Option<string>)

  /** `("", np.nan)`: the answer when there is no cabin to read. */
  const NoCabin := FloorAndNumber("", None)

  /** The separator the cabin field is split on. */
  const CabinSeparator := ' '

  /** The character class `[A-Z]`. */
  predicate IsUpper(c: char)
  {
    'A' <= c <= 'Z'
  }

  /** The character class `[0-9]`. */
  predicate IsDigit(c: char)
  {
    '0' <= c <= '9'
  }

  predicate AllDigits(s: string)
  {
    forall i :: 0 <= i < |s| ==> IsDigit(s[i])
  }

  /** `floor` and `number` are groups 1 and 2 of a match of the cabin pattern
      `([A-Z]{1})([0-9]{1,3})` at the start of `t`: one upper-case letter, then
      one to three digits, and whatever follows in `t` is not part of the match. */
  ghost predicate IsPatternMatch(t: string, floor: string, number: string)
  {
    && |floor| == 1 && IsUpper(floor[0])
    && 1 <= |number| <= 3 && AllDigits(number)
    && floor + number <= t
  }

  /** The match a greedy `{1,3}` settles on: the digits stop only after three of
      them, at the end of `t`, or before a character that is not a digit. */
  ghost predicate IsGreedyMatch(t: string, floor: string, number: string)
  {
    && IsPatternMatch(t, floor, number)
    && (|number| == 3 || |t| == 1 + |number| || !IsDigit(t[1 + |number|]))
  }

  /** The longest run of at most `max` digits at the start of `s`. */
  function LeadingDigits(s: string, max: nat): (d: string)
    ensures |d| <= max && d <= s && AllDigits(d)
    ensures |d| == max || |d| == |s| || !IsDigit(s[|d|])
  {
    if max == 0 || s == [] || !IsDigit(s[0]) then []
    else [s[0]] + LeadingDigits(s[1..], max - 1)
  }

  /** `re.match(pattern, t)`, giving `(match.group(1), match.group(2))` when
      the pattern matches at the start of `t`, and `None` when it does not. */
  function MatchPattern(t: string): (m: Option<(string, string)>)
    ensures m.Some? ==> IsGreedyMatch(t, m.value.0, m.value.1)
  {
    if |t| >= 2 && IsUpper(t[0]) && IsDigit(t[1]) then
      Some(([t[0]], LeadingDigits(t[1..], 3)))
    else
      None
  }

  /** The pattern fails on `t` exactly when no match of it starts `t`. */
  lemma MatchPatternNone(t: string)
    ensures MatchPattern(t).None? <==> forall floor, number :: !IsPatternMatch(t, floor, number)
  {
    forall floor, number | IsPatternMatch(t, floor, number) ensures MatchPattern(t).Some? {
      assert t[0] == (floor + number)[0] && t[1] == (floor + number)[1];
    }
    if MatchPattern(t).Some? {
      var m := MatchPattern(t).value;
      assert IsPatternMatch(t, m.0, m.1);
    }
  }

  /** The greedy match is the only one `re.match` can return: the pattern
      yields `(floor, number)` exactly when that pair is the greedy match. */
  lemma MatchPatternIsGreedyMatch(t: string, floor: string, number: string)
    ensures MatchPattern(t) == Some((floor, number)) <==> IsGreedyMatch(t, floor, number)
  {
    if IsGreedyMatch(t, floor, number) {
      var s := t[1..];
      assert floor == [t[0]] && t[1] == number[0];
      assert number == s[..|number|];
      var d := LeadingDigits(s, 3);
      assert MatchPattern(t) == Some(([t[0]], d));
      assert forall j :: 0 <= j < |number| ==> IsDigit(s[j]);
      assert forall j :: 0 <= j < |d| ==> IsDigit(s[j]);
      assert |d| == |number|;
      assert d == s[..|d|];
    }
  }

  /** The first token, in order, on which the pattern matches, and its groups;
      `None` when it matches on none of them. */
  function FirstMatch(tokens: seq<string>): (m: Option<(string, string)>)
    ensures m.Some? ==> exists i :: 0 <= i < |tokens| && MatchPattern(tokens[i]) == m
  {
    if tokens == [] then None
    else
      match MatchPattern(tokens[0])
      case Some(groups) => Some(groups)
      case None => FirstMatch(tokens[1..])
  }

  /** The result is the match on token `i` when the pattern fails on every
      token before it: tokens after it are never looked at. */
  lemma {:induction false} FirstMatchAt(tokens: seq<string>, i: nat)
    requires i < |tokens| && MatchPattern(tokens[i]).Some?
    requires forall j :: 0 <= j < i ==> MatchPattern(tokens[j]).None?
    ensures FirstMatch(tokens) == MatchPattern(tokens[i])
  {
    if i > 0 {
      assert MatchPattern(tokens[0]).None?;
      FirstMatchAt(tokens[1..], i - 1);
    }
  }

  /** There is no match exactly when the pattern fails on every token. */
  lemma {:induction false} FirstMatchNone(tokens: seq<string>)
    ensures FirstMatch(tokens).None? <==> forall i :: 0 <= i < |tokens| ==> MatchPattern(tokens[i]).None?
  {
    if tokens != [] {
      FirstMatchNone(tokens[1..]);
      if MatchPattern(tokens[0]).None? {
        forall i | 0 < i < |tokens| ensures MatchPattern(tokens[i]) == MatchPattern(tokens[1..][i - 1]) {
        }
      }
    }
  }

  /** Once a prefix of the tokens has a match, appending tokens changes nothing. */
  lemma {:induction false} FirstMatchIgnoresLater(tokens: seq<string>, later: seq<string>)
    requires FirstMatch(tokens).Some?
    ensures FirstMatch(tokens + later) == FirstMatch(tokens)
  {
    assert (tokens + later)[0] == tokens[0];
    if MatchPattern(tokens[0]).None? {
      assert (tokens + later)[1..] == tokens[1..] + later;
      FirstMatchIgnoresLater(tokens[1..], later);
    }
  }

  /** The tokens the parser looks at, in order: the field split on single
      spaces. Joined back with spaces they give the field again, and none of
      them holds a space. */
  function Tokens(s: string): (tokens: seq<string>)
    ensures |tokens| >= 1 && PyString.Join(tokens, CabinSeparator) == s
    ensures forall i :: 0 <= i < |tokens| ==> CabinSeparator !in tokens[i]
  {
    PyString.JoinSplit(s, CabinSeparator);
    PyString.SplitPiecesSeparatorFree(s, CabinSeparator);
    PyString.Split(s, CabinSeparator)
  }

  /** Tokens on which the pattern fails are passed over. */
  lemma {:induction false} FirstMatchSkipsUnmatched(skipped: seq<string>, tokens: seq<string>)
    requires forall i :: 0 <= i < |skipped| ==> MatchPattern(skipped[i]).None?
    ensures FirstMatch(skipped + tokens) == FirstMatch(tokens)
  {
    if skipped == [] {
      assert skipped + tokens == tokens;
    } else {
      assert (skipped + tokens)[0] == skipped[0];
      assert (skipped + tokens)[1..] == skipped[1..] + tokens;
      FirstMatchSkipsUnmatched(skipped[1..], tokens);
    }
  }

  /** `get_cabin_floor_and_number(cabin)`. A non-string yields `("", NaN)`;
      otherwise the field is split on single spaces and the first token that
      starts with the cabin pattern gives the floor letter and the number text;
      when no token does, the answer is again `("", NaN)`. */
  function GetCabinFloorAndNumber(cabin: Cabin): (r: FloorAndNumber)
    ensures cabin.NotAString? ==> r == NoCabin
    ensures r.floor == "" <==> r.number.None?
    ensures r.number.Some? ==> |r.floor| == 1 && IsUpper(r.floor[0])
    ensures r.number.Some? ==> 1 <= |r.number.value| <= 3 && AllDigits(r.number.value)
  {
    match cabin
    case NotAString => NoCabin
    case Str(s) =>
      match FirstMatch(Tokens(s))
      case Some((floor, number)) => FloorAndNumber(floor, Some(number))
      case None => NoCabin
  }

  /** When token `i` is the first one the pattern matches, the result is its
      greedy match: `floor + number` is a prefix of that token, with at most
      three digits taken and anything after them ignored. */
  lemma CabinFromFirstMatchingToken(s: string, i: nat)
    requires i < |Tokens(s)| && MatchPattern(Tokens(s)[i]).Some?
    requires forall j :: 0 <= j < i ==> MatchPattern(Tokens(s)[j]).None?
    ensures GetCabinFloorAndNumber(Str(s)).number.Some?
    ensures IsGreedyMatch(Tokens(s)[i], GetCabinFloorAndNumber(Str(s)).floor, GetCabinFloorAndNumber(Str(s)).number.value)
  {
    FirstMatchAt(Tokens(s), i);
  }

  /** The same property stated against the pattern alone: when token `i` starts
      with a match of the pattern and no earlier token does, the result is the
      greedy match at the start of token `i`. */
  lemma CabinFromFirstPatternMatch(s: string, i: nat)
    requires i < |Tokens(s)| && exists floor, number :: IsPatternMatch(Tokens(s)[i], floor, number)
    requires forall j, floor, number :: 0 <= j < i ==> !IsPatternMatch(Tokens(s)[j], floor, number)
    ensures GetCabinFloorAndNumber(Str(s)).number.Some?
    ensures IsGreedyMatch(Tokens(s)[i], GetCabinFloorAndNumber(Str(s)).floor, GetCabinFloorAndNumber(Str(s)).number.value)
  {
    forall j | 0 <= j <= i {
      MatchPatternNone(Tokens(s)[j]);
    }
    CabinFromFirstMatchingToken(s, i);
  }

  /** A cabin is found exactly when some token starts with a match of the pattern. */
  lemma CabinFoundIffSomeTokenMatches(s: string)
    ensures GetCabinFloorAndNumber(Str(s)) == NoCabin <==>
      forall i, floor, number :: 0 <= i < |Tokens(s)| ==> !IsPatternMatch(Tokens(s)[i], floor, number)
  {
    var tokens := Tokens(s);
    FirstMatchNone(tokens);
    forall i | 0 <= i < |tokens| {
      MatchPatternNone(tokens[i]);
    }
  }

  /** A found cabin is the greedy match at the start of one of the tokens. */
  lemma CabinComesFromSomeToken(s: string)
    requires GetCabinFloorAndNumber(Str(s)).number.Some?
    ensures exists i :: (0 <= i < |Tokens(s)| &&
      IsGreedyMatch(Tokens(s)[i], GetCabinFloorAndNumber(Str(s)).floor, GetCabinFloorAndNumber(Str(s)).number.value))
  {
    var r := GetCabinFloorAndNumber(Str(s));
    var i :| 0 <= i < |Tokens(s)| && MatchPattern(Tokens(s)[i]) == FirstMatch(Tokens(s));
    MatchPatternIsGreedyMatch(Tokens(s)[i], r.floor, r.number.value);
  }

  /** Cabins after the first readable one are never consulted: appending more
      space-separated text to a field that already yields a cabin changes nothing. */
  lemma LaterCabinsIgnored(s: string, more: string)
    requires GetCabinFloorAndNumber(Str(s)) != NoCabin
    ensures GetCabinFloorAndNumber(Str(s + [CabinSeparator] + more)) == GetCabinFloorAndNumber(Str(s))
  {
    PyString.SplitAppend(s, more, CabinSeparator);
    FirstMatchIgnoresLater(Tokens(s), Tokens(more));
  }

  /** Unreadable cabins are skipped: text before a space in which no token
      matches the pattern does not change the result. */
  lemma UnreadableCabinsSkipped(s: string, more: string)
    requires forall i :: 0 <= i < |Tokens(s)| ==> MatchPattern(Tokens(s)[i]).None?
    ensures GetCabinFloorAndNumber(Str(s + [CabinSeparator] + more)) == GetCabinFloorAndNumber(Str(more))
  {
    PyString.SplitAppend(s, more, CabinSeparator);
    FirstMatchSkipsUnmatched(Tokens(s), Tokens(more));
  }

  /** Worked values of the parser on typical fields of the data set. */
  lemma ExampleNotAString()
    ensures GetCabinFloorAndNumber(NotAString) == NoCabin
  {
  }

  lemma ExampleOneCabin()
    ensures GetCabinFloorAndNumber(Str("C85")) == FloorAndNumber("C", Some("85"))
  {
    TokensOf(["C85"], "C85");
  }

  lemma ExampleSeveralCabins()
    ensures GetCabinFloorAndNumber(Str("B57 B59 B63")) == FloorAndNumber("B", Some("57"))
  {
    TokensOf(["B57"], "B57");
    assert "B57 B59 B63" == "B57" + [CabinSeparator] + "B59 B63";
    LaterCabinsIgnored("B57", "B59 B63");
  }

  lemma ExampleDeckOnlyFirst()
    ensures GetCabinFloorAndNumber(Str("F G73")) == FloorAndNumber("G", Some("73"))
  {
    TokensOf(["F", "G73"], "F G73");
  }

  lemma ExampleLongNumber()
    ensures GetCabinFloorAndNumber(Str("C1234")) == FloorAndNumber("C", Some("123"))
  {
    TokensOf(["C1234"], "C1234");
    assert "C" + "123" <= "C1234";
    MatchPatternIsGreedyMatch("C1234", "C", "123");
  }

  lemma ExampleTrailingText()
    ensures GetCabinFloorAndNumber(Str("C85X")) == FloorAndNumber("C", Some("85"))
  {
    TokensOf(["C85X"], "C85X");
    assert "C" + "85" <= "C85X";
    MatchPatternIsGreedyMatch("C85X", "C", "85");
  }

  lemma ExampleDeckOnly()
    ensures GetCabinFloorAndNumber(Str("T")) == NoCabin
  {
    TokensOf(["T"], "T");
  }

  lemma ExampleEmpty()
    ensures GetCabinFloorAndNumber(Str("")) == NoCabin
  {
    TokensOf([""], "");
  }

  /** The tokens of a field written out as the pieces it joins. */
  lemma TokensOf(pieces: seq<string>, s: string)
    requires |pieces| >= 1 && PyString.Join(pieces, CabinSeparator) == s
    requires forall i :: 0 <= i < |pieces| ==> CabinSeparator !in pieces[i]
    ensures Tokens(s) == pieces
  {
    PyString.SplitJoin(pieces, CabinSeparator);
  }
}
