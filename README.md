# Titanic cabin parser

The Titanic classification example reads the passenger table and turns each
passenger's `Cabin` field into a deck letter (the "floor") and a cabin number
before handing the table to a Bayesian-network library. That conversion,
`get_cabin_floor_and_number`, is the one piece of self-contained logic in the
example, and it is what this project models and proves things about.

The parser takes a `Cabin` value such as `"C85"`, `"B57 B59 B63"` or a missing
value (pandas gives the float NaN). A value that is not a string yields
`("", NaN)`. A string is split on single spaces with Python's `str.split(" ")`,
and the tokens are tried in order against the regular expression
`([A-Z]{1})([0-9]{1,3})` with `re.match`, which anchors the match at the start
of the token only. The first token that matches gives `(group 1, group 2)`: one
upper-case letter and one to three digits, kept as text. When no token matches,
the result is again `("", NaN)`.

Files:

- `py_string.dfy`, module `PyString`: `str.split` with a one-character
  separator, its inverse `join`, and the round trips between them.
- `titanic_classification.dfy`, module `TitanicClassification`: the input and
  result datatypes (`Cabin`, `FloorAndNumber`, with `None` for NaN), the
  pattern as a hand-written prefix matcher (`MatchPattern`, `LeadingDigits`)
  beside an independent description of what a greedy match of the pattern is
  (`IsPatternMatch`, `IsGreedyMatch`), the first-match search over the tokens
  (`FirstMatch`), the parser itself (`GetCabinFloorAndNumber`) and the
  properties proved about them.

The code is pure: it changes no state and its loop is a first-match search
with an early return, so it is modelled by recursive functions.

## Model

| member | source | states |
|---|---|---|
| PyString.Split | examples/titanic/titanic_classification.py:17 | `cabin.split(" ")` always yields at least one token, even for the empty string |
| PyString.SplitCount | examples/titanic/titanic_classification.py:17 | the number of tokens is the number of spaces plus one, so adjacent spaces give empty tokens |
| PyString.SplitPiecesSeparatorFree | examples/titanic/titanic_classification.py:17 | no token contains the separator |
| PyString.JoinSplit | examples/titanic/titanic_classification.py:17 | joining the tokens with the separator gives back the original field |
| PyString.SplitJoin | examples/titanic/titanic_classification.py:17 | splitting a join of separator-free pieces gives back exactly those pieces |
| PyString.SplitAppend | examples/titanic/titanic_classification.py:17 | the tokens of `a + " " + b` are the tokens of `a` followed by the tokens of `b` |
| TitanicClassification.IsUpper | examples/titanic/titanic_classification.py:11 | the character class `[A-Z]`: the ASCII upper-case letters only |
| TitanicClassification.IsDigit | examples/titanic/titanic_classification.py:11 | the character class `[0-9]`: the ASCII digits only |
| TitanicClassification.IsPatternMatch | examples/titanic/titanic_classification.py:11-22 | reference definition of a match of `([A-Z]{1})([0-9]{1,3})` anchored at the token start: group 1 is one upper-case letter, group 2 one to three digits, and group 1 + group 2 is a prefix of the token |
| TitanicClassification.IsGreedyMatch | examples/titanic/titanic_classification.py:11-22 | reference definition of the match `re.match` returns: a pattern match whose digits stop only after three, at the token's end, or before a non-digit |
| TitanicClassification.LeadingDigits | examples/titanic/titanic_classification.py:11 | `[0-9]{1,3}` taken greedily: the result is a prefix of the input made of digits, at most the bound long, and it stops only at the bound, at the end, or before a non-digit |
| TitanicClassification.MatchPattern | examples/titanic/titanic_classification.py:11-22 | a successful `re.match` returns groups that form the greedy match of the pattern at the start of the token |
| TitanicClassification.MatchPatternNone | examples/titanic/titanic_classification.py:11-20 | `re.match` returns no match exactly when no match of the pattern starts the token |
| TitanicClassification.MatchPatternIsGreedyMatch | examples/titanic/titanic_classification.py:11-22 | the groups returned are `(floor, number)` if and only if that pair is the greedy anchored match, so extra digits beyond three and trailing text are dropped |
| TitanicClassification.FirstMatch | examples/titanic/titanic_classification.py:18-24 | a match found by the loop is the match of one of the tokens |
| TitanicClassification.FirstMatchAt | examples/titanic/titanic_classification.py:18-24 | when token `i` matches and no earlier token does, the loop returns token `i`'s groups |
| TitanicClassification.FirstMatchNone | examples/titanic/titanic_classification.py:18-25 | the loop finds nothing if and only if the pattern fails on every token |
| TitanicClassification.FirstMatchIgnoresLater | examples/titanic/titanic_classification.py:18-24 | once a match is found, tokens after it never change the answer |
| TitanicClassification.FirstMatchSkipsUnmatched | examples/titanic/titanic_classification.py:18-24 | tokens on which the pattern fails are passed over |
| TitanicClassification.Tokens | examples/titanic/titanic_classification.py:17 | `cabin.split(" ")` with the literal single-space separator: at least one token, none holding a space, and joining them with spaces gives back the field |
| TitanicClassification.NoCabin | examples/titanic/titanic_classification.py:15 | the value `("", np.nan)` returned on both no-result paths (lines 15 and 25) |
| TitanicClassification.GetCabinFloorAndNumber | examples/titanic/titanic_classification.py:13-25 | a non-string gives `("", NaN)`; `floor` is empty exactly when `number` is NaN; a found floor is one letter `A`-`Z` and a found number is one to three digits `0`-`9`, kept as text |
| TitanicClassification.CabinFromFirstMatchingToken | examples/titanic/titanic_classification.py:17-24 | the result is the greedy match at the start of the first token the pattern matches |
| TitanicClassification.CabinFromFirstPatternMatch | examples/titanic/titanic_classification.py:17-24 | stated against the reference definition alone: when token `i` starts with a pattern match and no earlier token does, the result is the greedy match at the start of token `i` |
| TitanicClassification.CabinFoundIffSomeTokenMatches | examples/titanic/titanic_classification.py:17-25 | the result is `("", NaN)` if and only if no token starts with a match of the pattern |
| TitanicClassification.CabinComesFromSomeToken | examples/titanic/titanic_classification.py:17-24 | a found `floor + number` is the greedy match at the start of one of the tokens |
| TitanicClassification.LaterCabinsIgnored | examples/titanic/titanic_classification.py:17-24 | appending more space-separated cabins to a field that already yields a cabin does not change the result |
| TitanicClassification.UnreadableCabinsSkipped | examples/titanic/titanic_classification.py:17-24 | leading text none of whose tokens match does not change the result |
| TitanicClassification.ExampleNotAString | examples/titanic/titanic_classification.py:14-15 | a missing (NaN) cabin gives `("", NaN)` |
| TitanicClassification.ExampleOneCabin | examples/titanic/titanic_classification.py:13-24 | `"C85"` gives `("C", "85")` |
| TitanicClassification.ExampleSeveralCabins | examples/titanic/titanic_classification.py:17-24 | `"B57 B59 B63"` gives `("B", "57")` |
| TitanicClassification.ExampleDeckOnlyFirst | examples/titanic/titanic_classification.py:17-24 | `"F G73"` gives `("G", "73")`: a deck letter without digits is skipped |
| TitanicClassification.ExampleLongNumber | examples/titanic/titanic_classification.py:11-22 | `"C1234"` gives `("C", "123")` |
| TitanicClassification.ExampleTrailingText | examples/titanic/titanic_classification.py:11-22 | `"C85X"` gives `("C", "85")` |
| TitanicClassification.ExampleDeckOnly | examples/titanic/titanic_classification.py:17-25 | `"T"` gives `("", NaN)` |
| TitanicClassification.ExampleEmpty | examples/titanic/titanic_classification.py:17-25 | `""` gives `("", NaN)` |

## Left out

- `main` (examples/titanic/titanic_classification.py:27-89): reading the CSV, editing DataFrame columns, logging set-up and attaching the JVM are I/O and library state.
- Structure learning, training and querying through the Bayesian-network library (lines 44-83) are calls into an external JVM-backed library whose code is not part of this model.
- k-fold cross-validation and accuracy scoring (lines 65-89) use a random shuffle and floating-point arithmetic in an external library.
- The conversion of `CabinNumber` to float (line 32): the model stops at the string pair the parser returns.
- Python's general regular-expression engine: only the one fixed pattern of line 11 is modelled, as a direct prefix check. Characters are Unicode scalar values; a Python string holding a lone surrogate has no Dafny counterpart, which changes nothing here because the parser treats such a character like any other non-space, non-letter, non-digit. `[A-Z]` and `[0-9]` are the ASCII ranges since the pattern has no flags.
- The distinction between kinds of non-string inputs (float NaN, `None`, numbers): the parser treats all of them alike, and so does the model (`NotAString`).
