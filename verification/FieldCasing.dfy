/**
 camelCase and snake_case field names. The two regular-expression substitutions of `to_snake`
 are modelled as the leftmost, greedy scans they are; names are over ASCII.
 */
module FieldCasing {
  import OrderedDict

  predicate IsUpper(c: char) {
    'A' <= c <= 'Z'
  }

  predicate IsLower(c: char) {
    'a' <= c <= 'z'
  }

  predicate IsDigit(c: char) {
    '0' <= c <= '9'
  }

  predicate IsLowerOrDigit(c: char) {
    IsLower(c) || IsDigit(c)
  }

  function LowerChar(c: char): char {
    if IsUpper(c) then (c as int + 32) as char else c
  }

  function UpperChar(c: char): char {
    if IsLower(c) then (c as int - 32) as char else c
  }

  function Lowered(s: string): string {
    if s == "" then "" else [LowerChar(s[0])] + Lowered(s[1..])
  }

  /** `str.capitalize`: the first character upper-cased, the others lower-cased. */
  function Capitalized(s: string): string {
    if s == "" then "" else [UpperChar(s[0])] + Lowered(s[1..])
  }

  // ---- to_camel ---------------------------------------------------------------------------

  /** `str.split("_")`, which always has at least one part. */
  function Split(s: string): (parts: seq<string>)
    ensures parts != []
  {
    if s == "" then [""]
    else
      var rest := Split(s[1..]);
      if s[0] == '_' then [""] + rest else [[s[0]] + rest[0]] + rest[1..]
  }

  function CapitalizedAll(parts: seq<string>): string {
    if parts == [] then "" else Capitalized(parts[0]) + CapitalizedAll(parts[1..])
  }

  function ToCamel(name: string): string {
    Split(name)[0] + CapitalizedAll(Split(name)[1..])
  }

  // ---- to_snake ---------------------------------------------------------------------------

  /** The length of the run of capitals `s` starts with. */
  function CapitalRun(s: string): (n: nat)
    ensures n <= |s|
    ensures forall i | 0 <= i < n :: IsUpper(s[i])
    ensures n < |s| ==> !IsUpper(s[n])
  {
    if s == "" || !IsUpper(s[0]) then 0 else 1 + CapitalRun(s[1..])
  }

  /** `re.sub("([A-Z]+)([A-Z][a-z])", ...)`: the greedy run gives back its last capital to the second group. */
  function SubAcronyms(s: string): string
    decreases |s|
  {
    if s == "" then ""
    else
      var n := CapitalRun(s);
      if n >= 2 && n < |s| && IsLower(s[n]) then s[..n - 1] + "_" + s[n - 1..n + 1] + SubAcronyms(s[n + 1..])
      else [s[0]] + SubAcronyms(s[1..])
  }

  /** `re.sub("([a-z0-9])([A-Z])", ...)`: a match consumes both characters. */
  function SubBoundaries(s: string): string
    decreases |s|
  {
    if s == "" then ""
    else if |s| > 1 && IsLowerOrDigit(s[0]) && IsUpper(s[1]) then [s[0], '_', s[1]] + SubBoundaries(s[2..])
    else [s[0]] + SubBoundaries(s[1..])
  }

  function ToSnake(name: string): string {
    Lowered(SubBoundaries(SubAcronyms(name)))
  }

  // ---- where an underscore goes, character by character -------------------------------------

  function AcronymMarks(afterCapital: bool, s: string): string
    decreases |s|
  {
    if s == "" then ""
    else (if afterCapital && IsUpper(s[0]) && |s| > 1 && IsLower(s[1]) then "_" else "")
         + [s[0]] + AcronymMarks(IsUpper(s[0]), s[1..])
  }

  function BoundaryMarks(afterSmall: bool, s: string): string
    decreases |s|
  {
    if s == "" then ""
    else (if afterSmall && IsUpper(s[0]) then "_" else "") + [s[0]] + BoundaryMarks(IsLowerOrDigit(s[0]), s[1..])
  }

  function Marks(afterSmall: bool, afterCapital: bool, s: string): string
    decreases |s|
  {
    if s == "" then ""
    else (if IsUpper(s[0]) && (afterSmall || (afterCapital && |s| > 1 && IsLower(s[1]))) then "_" else "")
         + [s[0]] + Marks(IsLowerOrDigit(s[0]), IsUpper(s[0]), s[1..])
  }

  /** What the acronym rule makes of a run of `n` capitals followed by a small letter. */
  function SplitRun(s: string, n: nat): string
    requires 1 <= n < |s|
  {
    s[..n - 1] + "_" + s[n - 1..n + 1]
  }

  lemma SplitRunStep(s: string, n: nat)
    requires 2 <= n < |s|
    ensures SplitRun(s, n) == [s[0]] + SplitRun(s[1..], n - 1)
    ensures s[1..][n..] == s[n + 1..]
  {
    assert s[1..][n - 2..n] == s[n - 1..n + 1];
    assert s[..n - 1] == [s[0]] + s[1..][..n - 2];
  }

  lemma {:induction false} RunMarks(s: string)
    requires CapitalRun(s) >= 1 && CapitalRun(s) < |s| && IsLower(s[CapitalRun(s)])
    ensures AcronymMarks(true, s) == SplitRun(s, CapitalRun(s)) + AcronymMarks(false, s[CapitalRun(s) + 1..])
    decreases |s|
  {
    hide IsUpper, IsLower, AcronymMarks, CapitalRun, SplitRun;
    var n := CapitalRun(s);
    if n == 1 {
      RunStarts(s);
      OneCapitalMarks(s);
    } else {
      RunContinues(s);
      SplitRunStep(s, n);
      RunMarks(s[1..]);
      PrependAll(s[0], SplitRun(s[1..], n - 1), AcronymMarks(false, s[n + 1..]));
    }
  }

  lemma PrependAll(c: char, s: string, t: string)
    ensures [c] + (s + t) == [c] + s + t
  {
  }

  lemma RunStarts(s: string)
    requires CapitalRun(s) >= 1
    ensures s != "" && IsUpper(s[0])
  {
  }

  /** Inside a longer run the first capital is not marked. */
  lemma RunContinues(s: string)
    requires CapitalRun(s) >= 2
    ensures CapitalRun(s[1..]) == CapitalRun(s) - 1
    ensures AcronymMarks(true, s) == [s[0]] + AcronymMarks(true, s[1..])
  {
    hide IsLower;
    RunStarts(s);
    RunStarts(s[1..]);
    CapitalIsNotLower(s[1]);
  }

  lemma CapitalIsNotLower(c: char)
    requires IsUpper(c)
    ensures !IsLower(c) && !IsLowerOrDigit(c)
  {
  }

  lemma LowerIsNotCapital(c: char)
    requires IsLower(c)
    ensures !IsUpper(c)
  {
  }

  lemma OneCapitalMarks(s: string)
    requires |s| > 1 && IsUpper(s[0]) && IsLower(s[1])
    ensures AcronymMarks(true, s) == SplitRun(s, 1) + AcronymMarks(false, s[2..])
  {
    hide IsUpper, IsLower;
    LowerIsNotCapital(s[1]);
    var tail := s[1..];
    assert tail[0] == s[1] && tail[1..] == s[2..];
    assert AcronymMarks(true, tail) == [s[1]] + AcronymMarks(false, s[2..]);
    assert SplitRun(s, 1) == "_" + [s[0], s[1]];
  }

  lemma {:induction false} AcronymScanIsLocal(afterCapital: bool, s: string)
    requires afterCapital ==> !(CapitalRun(s) >= 1 && CapitalRun(s) < |s| && IsLower(s[CapitalRun(s)]))
    ensures SubAcronyms(s) == AcronymMarks(afterCapital, s)
    decreases |s|
  {
    hide IsUpper, IsLower;
    if s != "" {
      var n := CapitalRun(s);
      if n >= 2 && n < |s| && IsLower(s[n]) {
        AcronymScanIsLocal(false, s[n + 1..]);
        AcronymHere(s);
      } else {
        AcronymScanIsLocal(IsUpper(s[0]), s[1..]);
        NoAcronymHere(afterCapital, s);
      }
    }
  }

  lemma AcronymHere(s: string)
    requires CapitalRun(s) >= 2 && CapitalRun(s) < |s| && IsLower(s[CapitalRun(s)])
    requires SubAcronyms(s[CapitalRun(s) + 1..]) == AcronymMarks(false, s[CapitalRun(s) + 1..])
    ensures SubAcronyms(s) == AcronymMarks(false, s)
  {
    hide IsUpper, IsLower, SubAcronyms, AcronymMarks, CapitalRun, SplitRun;
    var n, tail := CapitalRun(s), s[1..];
    AcronymSplits(s);
    AcronymTail(s);
    SplitRunStep(s, n);
    RunMarks(tail);
    PrependAll(s[0], SplitRun(tail, n - 1), AcronymMarks(false, s[n + 1..]));
  }

  lemma AcronymSplits(s: string)
    requires CapitalRun(s) >= 2 && CapitalRun(s) < |s| && IsLower(s[CapitalRun(s)])
    ensures SubAcronyms(s) == SplitRun(s, CapitalRun(s)) + SubAcronyms(s[CapitalRun(s) + 1..])
  {
    hide IsUpper, IsLower, AcronymMarks, CapitalRun;
  }

  lemma AcronymTail(s: string)
    requires CapitalRun(s) >= 2 && CapitalRun(s) < |s| && IsLower(s[CapitalRun(s)])
    ensures CapitalRun(s[1..]) == CapitalRun(s) - 1
    ensures AcronymMarks(false, s) == [s[0]] + AcronymMarks(true, s[1..])
  {
    hide IsLower, SubAcronyms;
  }

  lemma NoAcronymHere(afterCapital: bool, s: string)
    requires s != "" && (afterCapital ==> !(CapitalRun(s) >= 1 && CapitalRun(s) < |s| && IsLower(s[CapitalRun(s)])))
    ensures AcronymMarks(afterCapital, s) == [s[0]] + AcronymMarks(IsUpper(s[0]), s[1..])
  {
    hide IsUpper, IsLower;
    if |s| > 1 && IsLower(s[1]) {
      LowerIsNotCapital(s[1]);
      assert CapitalRun(s[1..]) == 0;
    }
  }

  lemma {:induction false} BoundaryScanIsLocal(s: string)
    ensures SubBoundaries(s) == BoundaryMarks(false, s)
    decreases |s|
  {
    hide IsUpper, IsLowerOrDigit;
    if s != "" {
      if |s| > 1 && IsLowerOrDigit(s[0]) && IsUpper(s[1]) {
        BoundaryScanIsLocal(s[2..]);
        CapitalIsNotLower(s[1]);
        var tail := s[1..];
        assert tail[0] == s[1] && tail[1..] == s[2..];
        assert BoundaryMarks(true, tail) == "_" + [s[1]] + BoundaryMarks(false, s[2..]);
        assert BoundaryMarks(false, s) == [s[0]] + BoundaryMarks(true, tail);
      } else {
        BoundaryScanIsLocal(s[1..]);
        BoundaryWithoutMark(IsLowerOrDigit(s[0]), s[1..]);
      }
    }
  }

  lemma BoundaryWithoutMark(afterSmall: bool, s: string)
    requires !(afterSmall && s != "" && IsUpper(s[0]))
    ensures BoundaryMarks(afterSmall, s) == BoundaryMarks(false, s)
  {
  }

  lemma {:induction false} MarksCompose(afterSmall: bool, afterCapital: bool, s: string)
    requires !(afterSmall && afterCapital)
    ensures BoundaryMarks(afterSmall, AcronymMarks(afterCapital, s)) == Marks(afterSmall, afterCapital, s)
    decreases |s|
  {
    if s != "" {
      MarksCompose(IsLowerOrDigit(s[0]), IsUpper(s[0]), s[1..]);
      var inner := [s[0]] + AcronymMarks(IsUpper(s[0]), s[1..]);
      assert inner[1..] == AcronymMarks(IsUpper(s[0]), s[1..]);
      if afterCapital && IsUpper(s[0]) && |s| > 1 && IsLower(s[1]) {
        var outer := "_" + inner;
        assert outer[1..] == inner;
      } else {
        assert "" + inner == inner;
      }
    }
  }

  /** The two substitutions mark exactly the word boundaries of a camelCase name. */
  lemma ToSnakeMarksBoundaries(name: string)
    ensures ToSnake(name) == Lowered(Marks(false, false, name))
  {
    AcronymScanIsLocal(false, name);
    BoundaryScanIsLocal(SubAcronyms(name));
    MarksCompose(false, false, name);
  }

  // ---- names that survive the round trip ------------------------------------------------------

  predicate Plain(s: string) {
    forall i | 0 <= i < |s| :: IsLowerOrDigit(s[i])
  }

  predicate AllPlain(parts: seq<string>) {
    forall k | 0 <= k < |parts| :: Plain(parts[k])
  }

  predicate IsName(s: string) {
    forall i | 0 <= i < |s| :: IsLowerOrDigit(s[i]) || s[i] == '_'
  }

  function JoinTail(parts: seq<string>): string {
    if parts == [] then "" else "_" + parts[0] + JoinTail(parts[1..])
  }

  /** `split` undoes joining with underscores: a name is its parts and nothing else. */
  lemma {:induction false} SplitIsExact(name: string)
    requires IsName(name)
    ensures AllPlain(Split(name))
    ensures name == Split(name)[0] + JoinTail(Split(name)[1..])
  {
    hide IsLowerOrDigit;
    if name != "" {
      assert IsName(name[1..]);
      SplitIsExact(name[1..]);
      SplitStep(name, Split(name[1..]));
    }
  }

  lemma SplitStep(name: string, rest: seq<string>)
    requires name != "" && rest != [] && AllPlain(rest) && name[1..] == rest[0] + JoinTail(rest[1..])
    requires Split(name[1..]) == rest && (IsLowerOrDigit(name[0]) || name[0] == '_')
    ensures AllPlain(Split(name))
    ensures name == Split(name)[0] + JoinTail(Split(name)[1..])
  {
    hide IsLowerOrDigit, Split;
    var parts := if name[0] == '_' then [""] + rest else [[name[0]] + rest[0]] + rest[1..];
    assert parts == Split(name) by {
      SplitUnfolds(name);
    }
    assert parts[1..] == if name[0] == '_' then rest else rest[1..];
    if name[0] == '_' {
      assert JoinTail(rest) == "_" + rest[0] + JoinTail(rest[1..]);
      assert name == [name[0]] + name[1..];
    } else {
      assert Plain(parts[0]);
      assert name == [name[0]] + name[1..];
    }
  }

  lemma SplitUnfolds(name: string)
    requires name != ""
    ensures Split(name)
         == if name[0] == '_' then [""] + Split(name[1..])
             else [[name[0]] + Split(name[1..])[0]] + Split(name[1..])[1..]
  {
  }

  /** Joining plain parts and splitting again gives the parts back. */
  lemma {:induction false} SplitOfJoin(parts: seq<string>)
    requires parts != [] && AllPlain(parts)
    ensures Split(parts[0] + JoinTail(parts[1..])) == parts
    decreases |parts|, |parts[0]|
  {
    hide IsLowerOrDigit, Split;
    var first, tail := parts[0], JoinTail(parts[1..]);
    var name := first + tail;
    if first != "" {
      var shorter := [first[1..]] + parts[1..];
      assert Plain(first[1..]) && AllPlain(shorter) && shorter[1..] == parts[1..];
      SplitOfJoin(shorter);
      assert name[1..] == first[1..] + tail;
      assert IsLowerOrDigit(name[0]);
      NoUnderscore(name[0]);
      SplitUnfolds(name);
      assert [name[0]] + first[1..] == first;
    } else if |parts| > 1 {
      assert AllPlain(parts[1..]);
      SplitOfJoin(parts[1..]);
      assert name == "_" + (parts[1] + JoinTail(parts[2..]));
      SplitUnfolds(name);
      assert parts[1..][1..] == parts[2..];
    } else {
      assert name == "";
      SplitNothing();
    }
  }

  lemma NoUnderscore(c: char)
    requires IsLowerOrDigit(c)
    ensures c != '_'
  {
  }

  lemma SplitNothing()
    ensures Split("") == [""]
  {
  }

  lemma {:induction false} LoweredConcat(s: string, t: string)
    ensures Lowered(s + t) == Lowered(s) + Lowered(t)
  {
    if s == "" {
      assert s + t == t;
    } else {
      LoweredConcat(s[1..], t);
      assert (s + t)[1..] == s[1..] + t;
    }
  }

  lemma {:induction false} LoweredPlain(s: string)
    requires Plain(s)
    ensures Lowered(s) == s
  {
    if s != "" {
      LoweredPlain(s[1..]);
    }
  }

  lemma {:induction false} MarksOverPlain(afterSmall: bool, afterCapital: bool, s: string, tail: string)
    requires Plain(s)
    ensures Marks(afterSmall, afterCapital, s + tail) == s + Marks(afterSmall || s != "", afterCapital && s == "", tail)
    decreases |s|
  {
    hide Marks, IsUpper, IsLower, IsLowerOrDigit;
    if s == "" {
      assert s + tail == tail;
    } else {
      assert Plain(s[1..]) && (s + tail)[0] == s[0] && (s + tail)[1..] == s[1..] + tail;
      MarksOverPlain(true, false, s[1..], tail);
      PlainIsUnmarked(s[0]);
      MarksUnfold(afterSmall, afterCapital, s + tail);
      MarksAfterSmall(tail);
      var rest := Marks(true, false, tail);
      assert [s[0]] + (s[1..] + rest) == s + rest;
    }
  }

  lemma PlainIsUnmarked(c: char)
    requires IsLowerOrDigit(c)
    ensures !IsUpper(c)
  {
  }

  lemma MarksAfterSmall(s: string)
    ensures Marks(true, false, s) == Marks(true, true, s)
  {
  }

  /** Whether an underscore returns before `part`, given what kind of character comes before it. */
  predicate Marked(small: bool, capital: bool, part: string) {
    part != "" && IsLower(part[0]) && (small || (capital && |part| > 1 && IsLower(part[1])))
  }

  /** What snake-casing makes of capitalised parts. */
  function Rejoined(small: bool, capital: bool, parts: seq<string>): string
    decreases |parts|
  {
    if parts == [] then ""
    else if parts[0] == "" then Rejoined(small, capital, parts[1..])
    else
      (if Marked(small, capital, parts[0]) then "_" else "") + parts[0]
      + Rejoined(!LoneLetter(parts[0]), LoneLetter(parts[0]), parts[1..])
  }

  predicate LoneLetter(part: string) {
    |part| == 1 && IsLower(part[0])
  }

  lemma {:induction false} CapitalisedStartsNoSmall(parts: seq<string>)
    requires AllPlain(parts)
    ensures CapitalizedAll(parts) != "" ==> !IsLower(CapitalizedAll(parts)[0])
  {
    if parts != [] {
      CapitalisedStartsNoSmall(parts[1..]);
      if parts[0] == "" {
        assert CapitalizedAll(parts) == CapitalizedAll(parts[1..]);
      }
    }
  }

  lemma MarksUnfold(small: bool, capital: bool, s: string)
    requires s != ""
    ensures Marks(small, capital, s)
         == (if IsUpper(s[0]) && (small || (capital && |s| > 1 && IsLower(s[1]))) then "_" else "")
            + [s[0]] + Marks(IsLowerOrDigit(s[0]), IsUpper(s[0]), s[1..])
  {
  }

  lemma FirstCharacter(part: string)
    requires Plain(part) && part != ""
    ensures IsUpper(UpperChar(part[0])) == IsLower(part[0])
    ensures IsLowerOrDigit(UpperChar(part[0])) == !IsLower(part[0])
    ensures Capitalized(part) == [UpperChar(part[0])] + part[1..]
    ensures Plain(part[1..])
  {
    LoweredPlain(part[1..]);
  }

  /** One capitalised part: its first character may be marked, the rest is copied. */
  lemma OnePart(small: bool, capital: bool, part: string, tail: string)
    requires Plain(part) && part != ""
    requires tail != "" ==> !IsLower(tail[0])
    ensures Marks(small, capital, Capitalized(part) + tail)
         == (if Marked(small, capital, part) then "_" else "") + Capitalized(part)
            + Marks(!LoneLetter(part), LoneLetter(part), tail)
  {
    hide Marks, UpperChar, IsUpper, IsLower, IsLowerOrDigit, Capitalized, Plain;
    var first, rest := UpperChar(part[0]), part[1..];
    var s := Capitalized(part) + tail;
    FirstCharacter(part);
    assert s[0] == first && s[1..] == rest + tail;
    assert |s| > 1 && IsLower(s[1]) <==> |part| > 1 && IsLower(part[1]);
    MarksUnfold(small, capital, s);
    MarksOverPlain(!IsLower(part[0]), IsLower(part[0]), rest, tail);
    if rest != "" {
      MarksAfterSmall(tail);
    }
    var after := Marks(!LoneLetter(part), LoneLetter(part), tail);
    assert [first] + (rest + after) == Capitalized(part) + after;
  }

  lemma LoweredCapitalized(part: string)
    requires Plain(part)
    ensures Lowered(Capitalized(part)) == part
  {
    if part != "" {
      LoweredPlain(part[1..]);
      LoweredPlain(Lowered(part[1..]));
      assert Capitalized(part)[1..] == Lowered(part[1..]);
    }
  }

  lemma NothingToMark(small: bool, capital: bool)
    ensures Lowered(Marks(small, capital, "")) == ""
  {
  }

  lemma LoweredMark(mark: string)
    requires mark == "" || mark == "_"
    ensures Lowered(mark) == mark
  {
  }

  lemma EmptyPart(parts: seq<string>)
    requires parts != [] && parts[0] == ""
    ensures CapitalizedAll(parts) == CapitalizedAll(parts[1..])
  {
  }

  lemma {:induction false} CapitalisedPartsRejoin(small: bool, capital: bool, parts: seq<string>)
    requires AllPlain(parts)
    ensures Lowered(Marks(small, capital, CapitalizedAll(parts))) == Rejoined(small, capital, parts)
    decreases |parts|
  {
    hide Marks, Lowered, Capitalized, Plain;
    if parts == [] {
      NothingToMark(small, capital);
    } else {
      var part, rest := parts[0], parts[1..];
      var tail := CapitalizedAll(rest);
      assert AllPlain(rest);
      if part == "" {
        EmptyPart(parts);
        CapitalisedPartsRejoin(small, capital, rest);
      } else {
        CapitalisedPartsRejoin(!LoneLetter(part), LoneLetter(part), rest);
        CapitalisedStartsNoSmall(rest);
        OnePart(small, capital, part, tail);
        var mark := if Marked(small, capital, part) then "_" else "";
        var marked := Marks(!LoneLetter(part), LoneLetter(part), tail);
        LoweredConcat(mark + Capitalized(part), marked);
        LoweredConcat(mark, Capitalized(part));
        LoweredCapitalized(part);
        LoweredMark(mark);
      }
    }
  }

  // ---- the exact condition ---------------------------------------------------------------------

  predicate AllMarked(small: bool, capital: bool, parts: seq<string>)
    decreases |parts|
  {
    parts != [] ==>
      Marked(small, capital, parts[0]) && AllMarked(!LoneLetter(parts[0]), LoneLetter(parts[0]), parts[1..])
  }

  lemma EmptyIsUnmarked(small: bool, capital: bool)
    ensures !Marked(small, capital, "")
  {
  }

  lemma {:induction false} EveryUnderscoreCounts(small: bool, capital: bool, parts: seq<string>)
    ensures |Rejoined(small, capital, parts)| <= |JoinTail(parts)|
    ensures Rejoined(small, capital, parts) == JoinTail(parts) <==> AllMarked(small, capital, parts)
    decreases |parts|
  {
    hide Marked, LoneLetter;
    if parts != [] {
      var part, rest := parts[0], parts[1..];
      if part == "" {
        EveryUnderscoreCounts(small, capital, rest);
        EmptyIsUnmarked(small, capital);
      } else {
        EveryUnderscoreCounts(!LoneLetter(part), LoneLetter(part), rest);
        var again := Rejoined(!LoneLetter(part), LoneLetter(part), rest);
        if Marked(small, capital, part) {
          SamePrefix("_" + part, again, JoinTail(rest));
        }
      }
    }
  }

  lemma SamePrefix(prefix: string, s: string, t: string)
    ensures prefix + s == prefix + t <==> s == t
  {
    assert (prefix + s)[|prefix|..] == s;
    assert (prefix + t)[|prefix|..] == t;
  }

  predicate SecondIsLetter(part: string) {
    |part| > 1 && IsLower(part[1])
  }

  predicate StartsWithLetter(part: string) {
    part != "" && IsLower(part[0])
  }

  /** Whether the boundary before part `k` can be found again. */
  predicate Findable(parts: seq<string>, k: nat)
    requires 1 <= k < |parts|
  {
    StartsWithLetter(parts[k]) && (if k == 1 then parts[0] != "" else |parts[k - 1]| > 1 || SecondIsLetter(parts[k]))
  }

  /** What a caller can check of a name's parts before relying on the round trip. */
  predicate Recoverable(parts: seq<string>) {
    forall k | 1 <= k < |parts| :: Findable(parts, k)
  }

  predicate LinkedAt(small: bool, capital: bool, parts: seq<string>, k: nat)
    requires k < |parts|
  {
    && StartsWithLetter(parts[k])
    && (if k == 0 then small || (capital && SecondIsLetter(parts[0]))
        else |parts[k - 1]| > 1 || SecondIsLetter(parts[k]))
  }

  predicate Linked(small: bool, capital: bool, parts: seq<string>) {
    forall k | 0 <= k < |parts| :: LinkedAt(small, capital, parts, k)
  }

  lemma {:induction false} AllMarkedIsLinked(small: bool, capital: bool, parts: seq<string>)
    ensures AllMarked(small, capital, parts) <==> Linked(small, capital, parts)
    decreases |parts|
  {
    if parts != [] {
      var part, rest := parts[0], parts[1..];
      AllMarkedIsLinked(!LoneLetter(part), LoneLetter(part), rest);
      LinkedStep(small, capital, parts);
    }
  }

  lemma LinkedStep(small: bool, capital: bool, parts: seq<string>)
    requires parts != []
    ensures Linked(small, capital, parts)
       <==> Marked(small, capital, parts[0]) && Linked(!LoneLetter(parts[0]), LoneLetter(parts[0]), parts[1..])
  {
    hide IsLower;
    var part, rest := parts[0], parts[1..];
    assert Marked(small, capital, part) <==> LinkedAt(small, capital, parts, 0);
    var small', capital' := !LoneLetter(part), LoneLetter(part);
    if Linked(small, capital, parts) {
      forall k | 0 <= k < |rest| ensures LinkedAt(small', capital', rest, k) {
        assert LinkedAt(small, capital, parts, 0) && LinkedAt(small, capital, parts, k + 1);
      }
    }
    if Marked(small, capital, part) && Linked(small', capital', rest) {
      forall k | 0 <= k < |parts| ensures LinkedAt(small, capital, parts, k) {
        assert k == 0 || LinkedAt(small', capital', rest, k - 1);
      }
    }
  }

  /** Snake-casing a camel-cased name gives the name back exactly when every part boundary can be found again. */
  lemma RoundTripIff(name: string)
    requires IsName(name)
    ensures ToSnake(ToCamel(name)) == name <==> Recoverable(Split(name))
  {
    hide Marks, Lowered, ToSnake, CapitalizedAll, Rejoined, JoinTail, AllMarked, IsName, Plain, StartsWithLetter,
         SecondIsLetter;
    var parts := Split(name);
    var first, rest := parts[0], parts[1..];
    SplitIsExact(name);
    ToSnakeMarksBoundaries(ToCamel(name));
    var tail := CapitalizedAll(rest);
    MarksOverPlain(false, false, first, tail);
    LoweredConcat(first, Marks(first != "", false, tail));
    LoweredPlain(first);
    CapitalisedPartsRejoin(first != "", false, rest);
    assert ToSnake(ToCamel(name)) == first + Rejoined(first != "", false, rest);
    SamePrefix(first, Rejoined(first != "", false, rest), JoinTail(rest));
    EveryUnderscoreCounts(first != "", false, rest);
    AllMarkedIsLinked(first != "", false, rest);
    LinkedIsRecoverable(parts);
  }

  lemma LinkedIsRecoverable(parts: seq<string>)
    requires parts != []
    ensures Linked(parts[0] != "", false, parts[1..]) <==> Recoverable(parts)
  {
    hide StartsWithLetter, SecondIsLetter;
    var rest := parts[1..];
    var small := parts[0] != "";
    if Recoverable(parts) {
      forall k | 0 <= k < |rest| ensures LinkedAt(small, false, rest, k) {
        assert Findable(parts, k + 1);
      }
    }
    if Linked(small, false, rest) {
      forall k | 1 <= k < |parts| ensures Findable(parts, k) {
        assert LinkedAt(small, false, rest, k - 1);
      }
    }
  }

  /** The usual case: later parts start with a letter and have two characters or more. */
  lemma WordsRoundTrip(name: string)
    requires IsName(name) && (name == "" || Split(name)[0] != "")
    requires forall k | 1 <= k < |Split(name)| :: StartsWithLetter(Split(name)[k]) && |Split(name)[k]| > 1
    ensures ToSnake(ToCamel(name)) == name
  {
    hide *;
    RoundTripIff(name);
    WordsAreRecoverable(name, Split(name));
  }

  lemma WordsAreRecoverable(name: string, parts: seq<string>)
    requires parts == Split(name) && (name == "" || parts[0] != "")
    requires forall k | 1 <= k < |parts| :: StartsWithLetter(parts[k]) && |parts[k]| > 1
    ensures Recoverable(parts)
  {
  }

  /** The boundary between two one-letter parts is lost. */
  lemma LoneLettersMerge()
    ensures ToSnake(ToCamel("a_b_c")) != "a_b_c"
  {
    var c, bc := "c", "b_c";
    assert Split(c[1..]) == [""];
    assert Split(c) == [c] by {
      assert ['c'] + "" == c;
    }
    assert bc[1..] == "_c" && "_c"[1..] == c;
    assert Split("_c") == ["", c];
    assert Split(bc) == ["b", c] by {
      assert ['b'] + "" == "b";
    }
    assert "a_b_c"[1..] == "_b_c" && "_b_c"[1..] == bc;
    assert Split("_b_c") == ["", "b", c];
    assert Split("a_b_c") == ["a", "b", c] by {
      assert ['a'] + "" == "a";
    }
    RoundTripIff("a_b_c");
    assert !Findable(["a", "b", c], 2);
  }

  // ---- dictionaries ------------------------------------------------------------------------------

  predicate RecoverableName(name: string) {
    IsName(name) && Recoverable(Split(name))
  }

  /**
   Every part after the first opens with a letter, the first is not empty if there is another, and what
   follows a later part of one character has a letter in second place.
   */
  ghost predicate Spelled(parts: seq<string>) {
    && (|parts| > 1 ==> parts[0] != "")
    && (forall k | 1 <= k < |parts| :: parts[k] != "" && 'a' <= parts[k][0] <= 'z')
    && forall k | 2 <= k < |parts| :: |parts[k - 1]| == 1 ==> |parts[k]| > 1 && 'a' <= parts[k][1] <= 'z'
  }

  /** The names that can be recovered, character by character. */
  lemma RecoverableIff(name: string)
    ensures RecoverableName(name) <==>
            && (forall i | 0 <= i < |name| :: 'a' <= name[i] <= 'z' || '0' <= name[i] <= '9' || name[i] == '_')
            && Spelled(Split(name))
  {
    PartsRecoverableIff(Split(name));
  }

  lemma PartsRecoverableIff(parts: seq<string>)
    ensures Recoverable(parts) <==> Spelled(parts)
  {
    if Recoverable(parts) {
      assert |parts| > 1 ==> Findable(parts, 1);
      forall k | 2 <= k < |parts| && |parts[k - 1]| == 1 ensures |parts[k]| > 1 && 'a' <= parts[k][1] <= 'z' {
        assert Findable(parts, k);
      }
      forall k | 1 <= k < |parts| ensures parts[k] != "" && 'a' <= parts[k][0] <= 'z' {
        assert Findable(parts, k);
      }
    }
    if Spelled(parts) {
      forall k | 1 <= k < |parts| ensures Findable(parts, k) {
        assert k >= 2 ==> parts[k - 1] != "";
      }
    }
  }

  function SnakeKeys<V>(d: OrderedDict.Items<V>): OrderedDict.Items<V> {
    OrderedDict.Renamed(ToSnake, d)
  }

  function CamelKeys<V>(d: OrderedDict.Items<V>): OrderedDict.Items<V> {
    OrderedDict.Renamed(ToCamel, d)
  }

  lemma CamelNamesStayApart(a: string, b: string)
    requires RecoverableName(a) && RecoverableName(b) && a != b
    ensures ToCamel(a) != ToCamel(b)
  {
    RoundTripIff(a);
    RoundTripIff(b);
  }

  /** Camel-casing the keys of a dict loses nothing: snake-casing them restores it, order included. */
  lemma KeysRoundTrip<V>(d: OrderedDict.Items<V>)
    requires OrderedDict.DistinctKeys(d)
    requires forall i | 0 <= i < |d| :: RecoverableName(d[i].0)
    ensures SnakeKeys(CamelKeys(d)) == d
  {
    hide ToCamel, ToSnake, RecoverableName;
    forall i, j | 0 <= i < j < |d| ensures ToCamel(d[i].0) != ToCamel(d[j].0) {
      CamelNamesStayApart(d[i].0, d[j].0);
    }
    OrderedDict.RenamingIsPointwise(ToCamel, d);
    var camel := CamelKeys(d);
    forall i | 0 <= i < |d| ensures ToSnake(camel[i].0) == d[i].0 {
      Restored(d[i].0);
    }
    OrderedDict.RenamingIsPointwise(ToSnake, camel);
  }

  lemma Restored(name: string)
    requires RecoverableName(name)
    ensures ToSnake(ToCamel(name)) == name
  {
    RoundTripIff(name);
  }
}
