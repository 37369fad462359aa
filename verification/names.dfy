/**
 * Reading a precinct number out of a place name returned by the places
 * search. The same extractor appears three times in the source, unchanged;
 * it is modelled once. Its regular expressions are written as explicit
 * scanners over the name.
 */
module Names {
  import opened Wrappers
  import opened Text

  /**
   * Membership in the fixed list of the city's 77 precinct numbers. The
   * list is split by range, one set per line of the source's constant, so
   * that a membership test only looks at one short set.
   */
  predicate IsKnownPrecinct(n: int) {
    if n < 40 then n in {1, 5, 6, 7, 9, 10, 13, 14, 17, 18, 19, 20, 22, 23, 24, 25, 26, 28, 30, 32, 33, 34}
    else if n < 60 then n in {40, 41, 42, 43, 44, 45, 46, 47, 48, 49, 50, 52}
    else if n < 100 then n in {60, 61, 62, 63, 66, 67, 68, 69, 70, 71, 72, 73, 75, 76, 77, 78, 79, 81, 83, 84, 88, 90, 94}
    else if n < 120 then n in {100, 101, 102, 103, 104, 105, 106, 107, 108, 109, 110, 111, 112, 113, 114, 115, 116}
    else n in {120, 121, 122}
  }

  /** The first index in [i, n) satisfying `P` (the leftmost match of a scan). */
  function FirstFrom(P: int -> bool, i: nat, n: nat): (r: Option<nat>)
    ensures r.Some? ==> i <= r.value < n && P(r.value)
    ensures r.Some? ==> forall j :: i <= j < r.value ==> !P(j)
    ensures r.None? ==> forall j :: i <= j < n ==> !P(j)
    decreases n - i
  {
    if i >= n then None
    else if P(i) then Some(i)
    else FirstFrom(P, i + 1, n)
  }

  /** The end of the run of digits that starts at `i` (`i` itself when there is none). */
  function RunEnd(s: string, i: nat): (e: nat)
    requires i <= |s|
    ensures i <= e <= |s|
    ensures forall k :: i <= k < e ==> IsDigit(s[k])
    ensures e == |s| || !IsDigit(s[e])
    decreases |s| - i
  {
    if i < |s| && IsDigit(s[i]) then RunEnd(s, i + 1) else i
  }

  predicate DigitAt(s: string, i: int) {
    0 <= i < |s| && IsDigit(s[i])
  }

  /** The decimal value of the digit run starting at `i`. */
  function RunValue(s: string, i: nat): nat
    requires DigitAt(s, i)
  {
    var e := RunEnd(s, i);
    assert AllDigits(s[i..e]) by {
      forall k | 0 <= k < e - i ensures IsDigit(s[i..e][k]) { assert s[i..e][k] == s[i + k]; }
    }
    DigitsValue(s[i..e])
  }

  /** `needle` (lower-case) occurs at `k`, ignoring the case of ASCII letters, as the `i` flag does. */
  predicate OccursAtIgnoringCase(s: string, needle: string, k: int) {
    0 <= k && k + |needle| <= |s| && ToLower(s[k..k + |needle|]) == needle
  }

  predicate KeywordAt(s: string, k: int) {
    OccursAtIgnoringCase(s, "precinct", k) || OccursAtIgnoringCase(s, "pct", k)
  }

  predicate OrdinalAt(s: string, k: int) {
    OccursAtIgnoringCase(s, "st", k) || OccursAtIgnoringCase(s, "nd", k)
    || OccursAtIgnoringCase(s, "rd", k) || OccursAtIgnoringCase(s, "th", k)
  }

  /** The first position at or after `j` that is not whitespace. */
  function SkipSpaces(s: string, j: nat): (k: nat)
    requires j <= |s|
    ensures j <= k <= |s|
    ensures AllSpaces(s, j, k)
    ensures k == |s| || !IsSpace(s[k])
    decreases |s| - j
  {
    if j < |s| && IsSpace(s[j]) then SkipSpaces(s, j + 1) else j
  }

  predicate AllSpaces(s: string, j: int, k: int)
    requires 0 <= j <= k <= |s|
  {
    forall m :: j <= m < k ==> IsSpace(s[m])
  }

  /** `\s*(?:st|nd|rd|th)?\s*(?:precinct|pct)` matches at `j`, scanned greedily. */
  predicate TailMatches(s: string, j: nat)
    requires j <= |s|
  {
    var a := SkipSpaces(s, j);
    KeywordAt(s, a) || (OrdinalAt(s, a) && a + 2 <= |s| && KeywordAt(s, SkipSpaces(s, a + 2)))
  }

  /** One way the tail pattern can match from `j`: spaces to `a`, an optional ordinal to `b`, spaces to `c`, then the keyword. */
  predicate TailSplit(s: string, j: int, a: int, b: int, c: int) {
    && 0 <= j <= a <= b <= c <= |s|
    && AllSpaces(s, j, a)
    && (b == a || (b == a + 2 && OrdinalAt(s, a)))
    && AllSpaces(s, b, c)
    && KeywordAt(s, c)
  }

  lemma LetterNotSpace(s: string, k: int)
    requires KeywordAt(s, k) || OrdinalAt(s, k)
    ensures 0 <= k < |s| && !IsSpace(s[k]) && !IsDigit(s[k])
  {
    assert ToLower(s[k..k + 2])[0] == LowerChar(s[k]);
  }

  lemma SkipSpacesStopsAt(s: string, j: nat, x: nat)
    requires j <= x < |s| && AllSpaces(s, j, x) && !IsSpace(s[x])
    ensures SkipSpaces(s, j) == x
    decreases x - j
  {
    if j < x { SkipSpacesStopsAt(s, j + 1, x); }
  }

  /** A greedy tail match is one of the splits the regular expression allows. */
  lemma TailMatchSplits(s: string, j: nat)
    requires j <= |s| && TailMatches(s, j)
    ensures exists a, b, c :: TailSplit(s, j, a, b, c)
  {
    var a := SkipSpaces(s, j);
    assert AllSpaces(s, j, a);
    if KeywordAt(s, a) {
      assert TailSplit(s, j, a, a, a);
    } else {
      assert OrdinalAt(s, a) && a + 2 <= |s|;
      var c := SkipSpaces(s, a + 2);
      assert AllSpaces(s, a + 2, c) && KeywordAt(s, c);
      assert TailSplit(s, j, a, a + 2, c);
    }
  }

  /** A split without the ordinal suffix is found by the greedy scan. */
  lemma PlainSplitMatchesTail(s: string, j: nat, a: int, c: int)
    requires TailSplit(s, j, a, a, c)
    ensures TailMatches(s, j)
  {
    LetterNotSpace(s, c);
    assert AllSpaces(s, j, c) by {
      forall m | j <= m < c ensures IsSpace(s[m]) {
        if m >= a { assert AllSpaces(s, a, c); }
      }
    }
    SkipSpacesStopsAt(s, j, c);
  }

  /** A split with the ordinal suffix is found by the greedy scan. */
  lemma OrdinalSplitMatchesTail(s: string, j: nat, a: int, c: int)
    requires TailSplit(s, j, a, a + 2, c)
    ensures TailMatches(s, j)
  {
    LetterNotSpace(s, c);
    LetterNotSpace(s, a);
    SkipSpacesStopsAt(s, j, a);
    SkipSpacesStopsAt(s, a + 2, c);
  }

  /** Any split the regular expression allows is found by the greedy scan. */
  lemma SplitMatchesTail(s: string, j: nat, a: int, b: int, c: int)
    requires TailSplit(s, j, a, b, c)
    ensures TailMatches(s, j)
  {
    if b == a {
      PlainSplitMatchesTail(s, j, a, c);
    } else {
      OrdinalSplitMatchesTail(s, j, a, c);
    }
  }

  /**
   * The greedy scan agrees with the backtracking regular expression: the
   * tail matches exactly when some split of it does.
   */
  lemma TailMatchesIffSplit(s: string, j: nat)
    requires j <= |s|
    ensures TailMatches(s, j) <==> exists a, b, c :: TailSplit(s, j, a, b, c)
  {
    if TailMatches(s, j) {
      TailMatchSplits(s, j);
    }
    if exists a, b, c :: TailSplit(s, j, a, b, c) {
      var a, b, c :| TailSplit(s, j, a, b, c);
      SplitMatchesTail(s, j, a, b, c);
    }
  }

  /** A tail match never starts on a digit, so `\d+` must take the whole run. */
  lemma SplitStartsOffDigit(s: string, e: int, a: int, b: int, c: int)
    requires TailSplit(s, e, a, b, c)
    ensures !DigitAt(s, e)
  {
    LetterNotSpace(s, c);
    if b != a {
      LetterNotSpace(s, a);
    }
  }

  /** `(\d+)\s*(?:st|nd|rd|th)?\s*(?:precinct|pct)` can start at `i` (its digits are then the whole run). */
  predicate OrdinalMatchAt(s: string, i: int) {
    DigitAt(s, i) && TailMatches(s, RunEnd(s, i))
  }

  /** The leftmost match starts a digit run: a digit before it would give an earlier match. */
  lemma OrdinalMatchStartsRun(s: string)
    requires FirstOrdinalMatch(s).Some?
    ensures var i := FirstOrdinalMatch(s).value; i == 0 || !IsDigit(s[i - 1])
  {
    var P := j => OrdinalMatchAt(s, j);
    var i := FirstFrom(P, 0, |s|).value;
    if i > 0 {
      assert !P(i - 1);
      RunEndStep(s, i - 1);
    }
  }

  lemma RunEndStep(s: string, k: nat)
    requires k < |s|
    ensures IsDigit(s[k]) ==> RunEnd(s, k) == RunEnd(s, k + 1)
  {
  }

  /** `\b(\d{1,3})\b` matches at `i`: a word boundary, one to three digits, a word boundary. */
  predicate BoundedNumberAt(s: string, i: int) {
    && DigitAt(s, i)
    && (i == 0 || !IsWordChar(s[i - 1]))
    && RunEnd(s, i) - i <= 3
    && (RunEnd(s, i) == |s| || !IsWordChar(s[RunEnd(s, i)]))
  }

  /**
   * Any one-to-three-digit stretch with word boundaries on both sides is a
   * whole digit run, so a run of four or more digits never matches.
   */
  lemma BoundedNumberIsWholeRun(s: string, i: nat, k: nat)
    requires 1 <= k <= 3 && i + k <= |s|
    requires forall m :: i <= m < i + k ==> IsDigit(s[m])
    requires i + k == |s| || !IsWordChar(s[i + k])
    ensures RunEnd(s, i) == i + k
  {
    RunEndAfterDigits(s, i, i + k);
  }

  lemma RunEndAfterDigits(s: string, i: nat, e: nat)
    requires i <= e <= |s|
    requires forall m :: i <= m < e ==> IsDigit(s[m])
    requires e == |s| || !IsDigit(s[e])
    ensures RunEnd(s, i) == e
    decreases e - i
  {
    if i < e { RunEndAfterDigits(s, i + 1, e); }
  }

  /** The value of a digit run of at most three digits is below 1000. */
  lemma ShortRunValue(s: string, i: nat)
    requires DigitAt(s, i) && RunEnd(s, i) - i <= 3
    ensures RunValue(s, i) < 1000
  {
    var t := s[i..RunEnd(s, i)];
    assert AllDigits(t) by {
      forall k | 0 <= k < |t| ensures IsDigit(t[k]) { assert t[k] == s[i + k]; }
    }
    DigitsValueBound(t);
  }

  lemma {:induction false} DigitsValueBound(t: string)
    requires AllDigits(t)
    ensures DigitsValue(t) < Pow10(|t|)
  {
    if t != [] {
      assert AllDigits(t[..|t| - 1]);
      DigitsValueBound(t[..|t| - 1]);
    }
  }

  function Pow10(n: nat): nat { if n == 0 then 1 else 10 * Pow10(n - 1) }

  /** The first-matching position of each pattern. */
  function FirstOrdinalMatch(name: string): Option<nat> { FirstFrom(j => OrdinalMatchAt(name, j), 0, |name|) }
  function FirstDigit(name: string): Option<nat> { FirstFrom(j => DigitAt(name, j), 0, |name|) }
  function FirstBoundedNumber(name: string): Option<nat> { FirstFrom(j => BoundedNumberAt(name, j), 0, |name|) }

  /** `v` is the value of the digit run starting at `i`. */
  predicate IsRunValue(name: string, i: int, v: int) {
    DigitAt(name, i) && v == RunValue(name, i)
  }

  /**
   * `extractPrecinctNum`, in priority order: the three named precincts,
   * then `<digits> [st|nd|rd|th] precinct|pct`, then the first number of a
   * name that mentions "precinct", then a short standalone number in an
   * "nypd"/"police" name when it is a known precinct.
   */
  function ExtractPrecinctNum(name: string): (r: Option<int>)
    ensures r.Some? ==> r.value in {14, 18, 22} || exists i :: IsRunValue(name, i, r.value)
  {
    var lower := ToLower(name);
    if Includes(lower, "midtown") && Includes(lower, "south") then Some(14)
    else if Includes(lower, "midtown") && Includes(lower, "north") then Some(18)
    else if Includes(lower, "central park") then Some(22)
    else if FirstOrdinalMatch(name).Some? then
      var i := FirstOrdinalMatch(name).value;
      assert IsRunValue(name, i, RunValue(name, i));
      Some(RunValue(name, i))
    else if FirstDigit(name).Some? && Includes(lower, "precinct") then
      var i := FirstDigit(name).value;
      assert IsRunValue(name, i, RunValue(name, i));
      Some(RunValue(name, i))
    else if (Includes(lower, "nypd") || Includes(lower, "police")) && FirstBoundedNumber(name).Some?
      && IsKnownPrecinct(RunValue(name, FirstBoundedNumber(name).value)) then
      var i := FirstBoundedNumber(name).value;
      assert IsRunValue(name, i, RunValue(name, i));
      Some(RunValue(name, i))
    else None
  }

  /** None of the three named overrides applies to the name. */
  predicate NoOverrideWords(name: string) {
    NoMidtownOverride(name) && !Includes(ToLower(name), "central park")
  }

  /**
   * In the last tier only the first standalone short number is looked at:
   * a result there is always a known precinct number below 1000.
   */
  lemma LastTierKnownOnly(name: string)
    requires NoOverrideWords(name) && FirstOrdinalMatch(name).None?
    requires FirstDigit(name).None? || !Includes(ToLower(name), "precinct")
    ensures ExtractPrecinctNum(name).Some? ==>
      && FirstBoundedNumber(name).Some?
      && ExtractPrecinctNum(name).value == RunValue(name, FirstBoundedNumber(name).value)
      && IsKnownPrecinct(ExtractPrecinctNum(name).value)
      && ExtractPrecinctNum(name).value < 1000
  {
    if ExtractPrecinctNum(name).Some? {
      ShortRunValue(name, FirstBoundedNumber(name).value);
    }
  }

  /** A last-tier number outside the known list yields no precinct at all. */
  lemma LastTierRejectsUnknown(name: string, i: nat)
    requires NoOverrideWords(name) && FirstOrdinalMatch(name).None?
    requires !Includes(ToLower(name), "precinct")
    requires FirstBoundedNumber(name) == Some(i) && !IsKnownPrecinct(RunValue(name, i))
    ensures ExtractPrecinctNum(name) == None
  {
  }

  /**
   * The last tier accepts: with no earlier tier deciding, a name that says
   * "nypd" or "police" and whose first standalone short number is a known
   * precinct yields that number.
   */
  lemma LastTierAccepts(name: string, i: nat)
    requires NoOverrideWords(name) && FirstOrdinalMatch(name).None?
    requires FirstDigit(name).None? || !Includes(ToLower(name), "precinct")
    requires Includes(ToLower(name), "nypd") || Includes(ToLower(name), "police")
    requires BoundedNumberAt(name, i)
    requires forall j :: 0 <= j < i ==> !BoundedNumberAt(name, j)
    requires IsKnownPrecinct(RunValue(name, i))
    ensures ExtractPrecinctNum(name) == Some(RunValue(name, i))
  {
    FirstBoundedNumberIs(name, i);
  }

  /** Without "nypd" or "police" the last tier never fires, whatever numbers the name holds. */
  lemma LastTierNeedsPoliceWord(name: string)
    requires NoOverrideWords(name) && FirstOrdinalMatch(name).None?
    requires FirstDigit(name).None? || !Includes(ToLower(name), "precinct")
    requires !Includes(ToLower(name), "nypd") && !Includes(ToLower(name), "police")
    ensures ExtractPrecinctNum(name) == None
  {
  }

  /** The leftmost ordinal-pattern match is at `i` when it matches there and nowhere before. */
  lemma FirstOrdinalMatchIs(name: string, i: nat)
    requires OrdinalMatchAt(name, i)
    requires forall j :: 0 <= j < i ==> !OrdinalMatchAt(name, j)
    ensures FirstOrdinalMatch(name) == Some(i)
  {
    var P := j => OrdinalMatchAt(name, j);
    assert P(i);
    assert FirstFrom(P, 0, |name|) == FirstOrdinalMatch(name);
  }

  /** The first digit is at `i` when `i` holds a digit and nothing before it does. */
  lemma FirstDigitIs(name: string, i: nat)
    requires DigitAt(name, i)
    requires forall j :: 0 <= j < i ==> !DigitAt(name, j)
    ensures FirstDigit(name) == Some(i)
  {
    var P := j => DigitAt(name, j);
    assert P(i);
    assert FirstFrom(P, 0, |name|) == FirstDigit(name);
  }

  /**
   * Without an override, the leftmost `<digits> [st|nd|rd|th] precinct|pct`
   * match decides: its whole digit run is the result, known precinct or not.
   */
  lemma OrdinalTierDecides(name: string, i: nat)
    requires NoOverrideWords(name)
    requires OrdinalMatchAt(name, i)
    requires forall j :: 0 <= j < i ==> !OrdinalMatchAt(name, j)
    ensures ExtractPrecinctNum(name) == Some(RunValue(name, i))
  {
    FirstOrdinalMatchIs(name, i);
  }

  /**
   * Without an override or an ordinal match, a name mentioning "precinct"
   * gives the run of its first digit, known precinct or not.
   */
  lemma PrecinctWordTierDecides(name: string, i: nat)
    requires NoOverrideWords(name) && FirstOrdinalMatch(name).None?
    requires Includes(ToLower(name), "precinct")
    requires DigitAt(name, i)
    requires forall j :: 0 <= j < i ==> !DigitAt(name, j)
    ensures ExtractPrecinctNum(name) == Some(RunValue(name, i))
  {
    FirstDigitIs(name, i);
  }

  /** Neither "midtown" override applies to the name. */
  predicate NoMidtownOverride(name: string) {
    var lower := ToLower(name);
    !(Includes(lower, "midtown") && (Includes(lower, "south") || Includes(lower, "north")))
  }

  /**
   * The named overrides come before any numeric parsing, in their order:
   * "midtown" with "south" is 14 even when "north" is there too, "midtown"
   * with "north" is 18, and "central park" is 22 only when neither
   * midtown override applies.
   */
  lemma OverridesComeFirst(name: string)
    ensures var lower := ToLower(name);
      && (Includes(lower, "midtown") && Includes(lower, "south") ==> ExtractPrecinctNum(name) == Some(14))
      && (Includes(lower, "midtown") && Includes(lower, "north") && !Includes(lower, "south") ==>
            ExtractPrecinctNum(name) == Some(18))
      && (NoMidtownOverride(name) && Includes(lower, "central park") ==> ExtractPrecinctNum(name) == Some(22))
  {
  }

  /** "Midtown South Precinct" mentions "midtown" and "south". */
  lemma MidtownSouthWords()
    ensures Includes(ToLower("Midtown South Precinct"), "midtown")
    ensures Includes(ToLower("Midtown South Precinct"), "south")
  {
    var lower := ToLower("Midtown South Precinct");
    assert lower[0..7] == "midtown";
    assert lower[8..13] == "south";
    assert OccursAt(lower, "midtown", 0);
    assert OccursAt(lower, "south", 8);
  }

  /** "Midtown South Precinct" reads as 14 though it holds no numeral. */
  lemma MidtownSouth()
    ensures ExtractPrecinctNum("Midtown South Precinct") == Some(14)
  {
    MidtownSouthWords();
    OverridesComeFirst("Midtown South Precinct");
  }

  /** "Midtown North" mentions "midtown" and "north" but not "south". */
  lemma MidtownNorthWords()
    ensures Includes(ToLower("Midtown North"), "midtown")
    ensures Includes(ToLower("Midtown North"), "north")
    ensures !Includes(ToLower("Midtown North"), "south")
  {
    var lower := ToLower("Midtown North");
    assert lower == "midtown north";
    assert OccursAt(lower, "midtown", 0);
    assert OccursAt(lower, "north", 8);
    MissingCharExcludes(lower, "south", 0);
  }

  /** "Midtown North" reads as 18. */
  lemma MidtownNorth()
    ensures ExtractPrecinctNum("Midtown North") == Some(18)
  {
    MidtownNorthWords();
    OverridesComeFirst("Midtown North");
  }

  /** "Central Park Precinct" mentions "central park" and not "midtown". */
  lemma CentralParkWords()
    ensures Includes(ToLower("Central Park Precinct"), "central park")
    ensures NoMidtownOverride("Central Park Precinct")
  {
    var lower := ToLower("Central Park Precinct");
    assert lower == "central park precinct";
    assert OccursAt(lower, "central park", 0);
    MissingCharExcludes(lower, "midtown", 0);
  }

  /** "Central Park Precinct" reads as 22. */
  lemma CentralPark()
    ensures ExtractPrecinctNum("Central Park Precinct") == Some(22)
  {
    CentralParkWords();
    OverridesComeFirst("Central Park Precinct");
  }

  /** The seed's name for an unnamed precinct. */
  function DefaultName(n: nat): string {
    NatToString(n) + "th Precinct"
  }

  lemma DefaultNameChars(n: nat, m: int)
    requires 0 <= m < |DefaultName(n)|
    ensures var k := |NatToString(n)|;
      (m < k ==> IsDigit(DefaultName(n)[m]))
      && (m >= k ==> DefaultName(n)[m] == "th Precinct"[m - k])
  {
  }

  lemma DefaultNameNoOverride(n: nat)
    ensures NoOverrideWords(DefaultName(n))
  {
    var name := DefaultName(n);
    var lower := ToLower(name);
    forall m | 0 <= m < |lower| ensures lower[m] != 'm' && lower[m] != 'a' {
      DefaultNameChars(n, m);
    }
    MissingCharExcludes(lower, "midtown", 0);
    MissingCharExcludes(lower, "central park", 5);
  }

  /** The letters of a "th Precinct" tail: the ordinal at `k`, a space, the keyword at `k + 3`. */
  lemma OrdinalTailWords(s: string, k: nat)
    requires k <= |s| && s[k..] == "th Precinct"
    ensures k + 11 == |s|
    ensures s[k] == 't' && s[k + 2] == ' ' && s[k + 3] == 'P'
    ensures OrdinalAt(s, k) && KeywordAt(s, k + 3)
  {
    var t := s[k..];
    assert s[k] == t[0] && s[k + 2] == t[2] && s[k + 3] == t[3];
    assert s[k..k + 2] == t[..2] == "th";
    assert ToLower("th") == "th";
    assert s[k + 3..k + 11] == t[3..] == "Precinct";
    assert ToLower("Precinct") == "precinct";
  }

  lemma OrdinalTail(s: string, k: nat)
    requires k <= |s| && s[k..] == "th Precinct"
    ensures TailMatches(s, k)
  {
    OrdinalTailWords(s, k);
    LetterNotSpace(s, k);
    assert SkipSpaces(s, k) == k;
    LetterNotSpace(s, k + 3);
    assert SkipSpaces(s, k + 3) == k + 3;
    assert SkipSpaces(s, k + 2) == k + 3;
  }

  lemma DefaultNameOrdinal(n: nat)
    ensures FirstOrdinalMatch(DefaultName(n)) == Some(0)
    ensures DigitAt(DefaultName(n), 0) && RunValue(DefaultName(n), 0) == n
  {
    var d := NatToString(n);
    var name := DefaultName(n);
    var k := |d|;
    forall m | 0 <= m < k ensures IsDigit(name[m]) { DefaultNameChars(n, m); }
    DefaultNameChars(n, k);
    RunEndAfterDigits(name, 0, k);
    assert name[k..] == "th Precinct";
    OrdinalTail(name, k);
    assert OrdinalMatchAt(name, 0);
    assert name[0..k] == d;
  }

  /**
   * The name the seed gives an unnamed precinct, "<n>th Precinct", reads
   * back as `n` through the ordinal pattern.
   */
  lemma DefaultNameReadsBack(n: nat)
    ensures ExtractPrecinctNum(DefaultName(n)) == Some(n)
  {
    DefaultNameNoOverride(n);
    DefaultNameOrdinal(n);
  }

  /** "Police 2 14" has no ordinal match: no digit run is followed by "precinct" or "pct". */
  lemma PoliceTwoFourteenNoOrdinal()
    ensures FirstOrdinalMatch("Police 2 14").None?
  {
    var a := "Police 2 14";
    RunEndAfterDigits(a, 7, 8);
    RunEndAfterDigits(a, 9, 11);
    RunEndAfterDigits(a, 10, 11);
    assert SkipSpaces(a, 9) == 9;
    assert SkipSpaces(a, 8) == 9;
    assert ToLower(a[9..11]) == "14";
    assert !KeywordAt(a, 9) && !OrdinalAt(a, 9);
    assert !TailMatches(a, 8);
    assert !TailMatches(a, 11);
    forall j | 0 <= j < |a| ensures !OrdinalMatchAt(a, j) {
      if j == 7 {
      } else if j == 9 || j == 10 {
      } else {
        assert !DigitAt(a, j);
      }
    }
  }

  /** A standalone short number with none before it is the first one. */
  lemma FirstBoundedNumberIs(name: string, k: nat)
    requires BoundedNumberAt(name, k)
    requires forall j :: 0 <= j < k ==> !BoundedNumberAt(name, j)
    ensures FirstBoundedNumber(name) == Some(k)
  {
    var P := j => BoundedNumberAt(name, j);
    assert P(k);
    var r := FirstFrom(P, 0, |name|);
    assert r == FirstBoundedNumber(name);
  }

  /** The first standalone short number of "Police 2 14" is the "2" at index 7. */
  lemma PoliceTwoFourteenFirstNumber()
    ensures FirstBoundedNumber("Police 2 14") == Some(7)
    ensures DigitAt("Police 2 14", 7) && RunValue("Police 2 14", 7) == 2
  {
    var a := "Police 2 14";
    RunEndAfterDigits(a, 7, 8);
    assert BoundedNumberAt(a, 7);
    forall j | 0 <= j < 7 ensures !BoundedNumberAt(a, j) {
      assert !DigitAt(a, j);
    }
    FirstBoundedNumberIs(a, 7);
    assert a[7..8] == "2";
  }

  /** "Police 2 14" mentions no override word and not "precinct". */
  lemma PoliceTwoFourteenWords()
    ensures NoOverrideWords("Police 2 14")
    ensures !Includes(ToLower("Police 2 14"), "precinct")
  {
    var la := ToLower("Police 2 14");
    assert la == "police 2 14";
    MissingCharExcludes(la, "midtown", 0);
    MissingCharExcludes(la, "central park", 3);
    MissingCharExcludes(la, "precinct", 1);
  }

  /** 2 is not a precinct number. */
  lemma TwoIsNoPrecinct()
    ensures !IsKnownPrecinct(2)
  {
  }

  /**
   * In an "nypd"/"police" name only the first standalone number counts:
   * "Police 2 14" gives nothing although 14 is a precinct.
   */
  lemma PoliceFirstNumberOnly()
    ensures ExtractPrecinctNum("Police 2 14") == None
  {
    TwoIsNoPrecinct();
    PoliceTwoFourteenWords();
    PoliceTwoFourteenNoOrdinal();
    PoliceTwoFourteenFirstNumber();
    LastTierRejectsUnknown("Police 2 14", 7);
  }

  /** "NYPD 1234" has no ordinal match and no standalone short number. */
  lemma FourDigitScan()
    ensures FirstOrdinalMatch("NYPD 1234").None?
    ensures FirstBoundedNumber("NYPD 1234").None?
  {
    var b := "NYPD 1234";
    forall j | 5 <= j < 9 ensures RunEnd(b, j) == 9 { RunEndAfterDigits(b, j, 9); }
    forall j | 0 <= j < |b| ensures !OrdinalMatchAt(b, j) && !BoundedNumberAt(b, j) {
    }
  }

  /** A four-digit number never matches the last tier's `\b(\d{1,3})\b`. */
  lemma FourDigitsNeverMatch()
    ensures ExtractPrecinctNum("NYPD 1234") == None
  {
    var lb := ToLower("NYPD 1234");
    assert lb == "nypd 1234";
    MissingCharExcludes(lb, "midtown", 0);
    MissingCharExcludes(lb, "central park", 0);
    MissingCharExcludes(lb, "precinct", 1);
    FourDigitScan();
  }
}
