/** Conversion of `{value, unit}` entries of a parameter tree to SI units
    (src/simulation/utils/convert_to_si.py). Python's `float(str)` and `repr(float)`
    are foreign code and enter as parameters. */
module ConvertToSi {
  import opened Wrappers
  import opened Json
  import Text

  /** The characters Python's `str.strip()` and the regex class `\s` treat as white
      space. */
  predicate IsSpace(c: char) {
    ('\U{9}' <= c <= '\U{D}') || ('\U{1C}' <= c <= ' ') || c == '\U{85}' || c == '\U{A0}'
    || c == '\U{1680}' || ('\U{2000}' <= c <= '\U{200A}') || c == '\U{2028}' || c == '\U{2029}'
    || c == '\U{202F}' || c == '\U{205F}' || c == '\U{3000}'
  }

  predicate NoSpace(s: string) {
    forall i :: 0 <= i < |s| ==> !IsSpace(s[i])
  }

  /** No white space at position i or after it. */
  predicate NoSpaceFrom(s: string, i: nat) {
    forall k :: i <= k < |s| ==> !IsSpace(s[k])
  }

  /** `re.sub(r"\s+", "", s)`: every white-space character removed. */
  function RemoveSpaces(s: string): (r: string)
    ensures NoSpace(r)
    ensures |r| <= |s|
    ensures NoSpace(s) ==> r == s
  {
    if |s| == 0 then ""
    else if IsSpace(s[0]) then RemoveSpaces(s[1..])
    else [s[0]] + RemoveSpaces(s[1..])
  }

  function StripLeft(s: string): (r: string)
    ensures |r| <= |s|
    ensures |r| > 0 ==> !IsSpace(r[0])
  {
    if |s| > 0 && IsSpace(s[0]) then StripLeft(s[1..]) else s
  }

  function StripRight(s: string): (r: string)
    ensures |r| <= |s|
    ensures |r| > 0 ==> !IsSpace(r[|r| - 1])
    ensures |s| > 0 && !IsSpace(s[0]) ==> |r| > 0 && r[0] == s[0]
  {
    if |s| > 0 && IsSpace(s[|s| - 1]) then StripRight(s[..|s| - 1]) else s
  }

  /** `str.strip()`: white space removed from both ends. */
  function Strip(s: string): (r: string)
    ensures |r| <= |s|
    ensures |r| > 0 ==> !IsSpace(r[0]) && !IsSpace(r[|r| - 1])
  {
    StripRight(StripLeft(s))
  }

  lemma {:induction false} RemoveSpacesAppend(a: string, b: string)
    ensures RemoveSpaces(a + b) == RemoveSpaces(a) + RemoveSpaces(b)
  {
    if |a| > 0 {
      assert (a + b)[0] == a[0];
      assert (a + b)[1..] == a[1..] + b;
      RemoveSpacesAppend(a[1..], b);
      if !IsSpace(a[0]) {
        assert [a[0]] + (RemoveSpaces(a[1..]) + RemoveSpaces(b))
          == ([a[0]] + RemoveSpaces(a[1..])) + RemoveSpaces(b);
      }
    } else {
      assert a + b == b;
    }
  }

  lemma {:induction false} StripLeftKeepsContent(s: string)
    ensures RemoveSpaces(StripLeft(s)) == RemoveSpaces(s)
  {
    if |s| > 0 && IsSpace(s[0]) {
      StripLeftKeepsContent(s[1..]);
    }
  }

  lemma {:induction false} StripRightKeepsContent(s: string)
    ensures RemoveSpaces(StripRight(s)) == RemoveSpaces(s)
  {
    if |s| > 0 && IsSpace(s[|s| - 1]) {
      var n := |s| - 1;
      StripRightKeepsContent(s[..n]);
      assert s == s[..n] + [s[n]];
      RemoveSpacesAppend(s[..n], [s[n]]);
      assert RemoveSpaces([s[n]]) == RemoveSpaces([s[n]][1..]);
    }
  }

  /** Stripping loses no character other than white space. */
  lemma StripKeepsContent(s: string)
    ensures RemoveSpaces(Strip(s)) == RemoveSpaces(s)
  {
    StripLeftKeepsContent(s);
    StripRightKeepsContent(StripLeft(s));
  }

  predicate OccursAt(s: string, i: nat, pat: string) {
    i + |pat| <= |s| && s[i..i + |pat|] == pat
  }

  /** `s.replace(pat, rep)`: non-overlapping occurrences from left to right. */
  function Replace(s: string, pat: string, rep: string): string
    requires |pat| > 0
    decreases |s|
  {
    if |s| == 0 then ""
    else if OccursAt(s, 0, pat) then rep + Replace(s[|pat|..], pat, rep)
    else [s[0]] + Replace(s[1..], pat, rep)
  }

  /** Replacing leaves no white space where neither the text nor the replacement
      had any. */
  lemma {:induction false} ReplaceKeepsNoSpace(s: string, pat: string, rep: string)
    requires |pat| > 0 && NoSpace(s) && NoSpace(rep)
    ensures NoSpace(Replace(s, pat, rep))
    decreases |s|
  {
    if |s| > 0 {
      if OccursAt(s, 0, pat) {
        ReplaceKeepsNoSpace(s[|pat|..], pat, rep);
      } else {
        ReplaceKeepsNoSpace(s[1..], pat, rep);
      }
    }
  }

  /** Replacing a single character by a text that does not hold it leaves none behind. */
  lemma {:induction false} ReplaceRemovesChar(s: string, c: char, rep: string)
    requires c !in rep
    ensures c !in Replace(s, [c], rep)
    decreases |s|
  {
    if |s| > 0 {
      ReplaceRemovesChar(s[1..], c, rep);
    }
  }

  /** Case-insensitive match of one character against a lower-case ASCII letter, as
      Python's `(?i)` flag does it for the letters used here: the upper-case letter, and
      for `s` also the long s U+017F. */
  predicate CharMatchesI(c: char, lower: char)
    requires 'a' <= lower <= 'z'
  {
    c == lower || c as int == lower as int - 32 || (lower == 's' && c == '\U{17F}')
  }

  predicate LowerWord(w: string) {
    forall i :: 0 <= i < |w| ==> 'a' <= w[i] <= 'z'
  }

  /** A pattern `w` followed by optional single letters, each greedy: `years?` is
      Pattern("year", "s"), `hr?s?` is Pattern("h", "rs"). */
  datatype Pattern = Pattern(required: string, optional: string)

  predicate ValidPattern(p: Pattern) {
    |p.required| > 0 && LowerWord(p.required) && LowerWord(p.optional)
  }

  predicate WordMatchesAt(s: string, i: nat, w: string)
    requires LowerWord(w)
    decreases |w|
  {
    |w| == 0 || (i < |s| && CharMatchesI(s[i], w[0]) && WordMatchesAt(s, i + 1, w[1..]))
  }

  lemma {:induction false} WordMatchFits(s: string, i: nat, w: string)
    requires LowerWord(w) && WordMatchesAt(s, i, w)
    ensures |w| > 0 ==> i + |w| <= |s|
    decreases |w|
  {
    if |w| > 1 {
      WordMatchFits(s, i + 1, w[1..]);
    }
  }

  /** How many characters of `s` the optional letters take greedily from `i` on. */
  function OptionalLength(s: string, i: nat, opt: string): (n: nat)
    requires LowerWord(opt)
    ensures i <= |s| ==> i + n <= |s|
    ensures n <= |opt|
    decreases |opt|
  {
    if |opt| == 0 then 0
    else if i < |s| && CharMatchesI(s[i], opt[0]) then 1 + OptionalLength(s, i + 1, opt[1..])
    else OptionalLength(s, i, opt[1..])
  }

  /** Length of the match of `p` at position `i`, or 0 when `p` does not match there. */
  function MatchLength(s: string, i: nat, p: Pattern): (n: nat)
    requires ValidPattern(p)
    ensures n > 0 ==> WordMatchesAt(s, i, p.required) && |p.required| <= n && i + n <= |s|
    ensures WordMatchesAt(s, i, p.required) ==> n > 0
  {
    if WordMatchesAt(s, i, p.required) then
      WordMatchFits(s, i, p.required);
      |p.required| + OptionalLength(s, i + |p.required|, p.optional)
    else 0
  }

  /** `re.sub("(?i)" + p, rep, s)` from position i on: leftmost, non-overlapping. */
  function SubFrom(s: string, i: nat, p: Pattern, rep: string): (r: string)
    requires ValidPattern(p) && i <= |s|
    ensures (forall k: nat :: i <= k < |s| ==> !WordMatchesAt(s, k, p.required)) ==> r == s[i..]
    ensures NoSpaceFrom(s, i) && NoSpace(rep) ==> NoSpace(r)
    decreases |s| - i
  {
    if i == |s| then ""
    else
      var n := MatchLength(s, i, p);
      if n > 0 then rep + SubFrom(s, i + n, p, rep)
      else
        assert s[i..] == [s[i]] + s[i + 1..];
        [s[i]] + SubFrom(s, i + 1, p, rep)
  }

  function Sub(s: string, p: Pattern, rep: string): (r: string)
    requires ValidPattern(p)
    ensures (forall k: nat :: k < |s| ==> !WordMatchesAt(s, k, p.required)) ==> r == s
    ensures NoSpace(s) && NoSpace(rep) ==> NoSpace(r)
  {
    assert s[0..] == s;
    SubFrom(s, 0, p, rep)
  }

  /** `re.sub(r"(?i)d$", "day", s)`: a final d or D becomes "day". White space,
      including a final newline that `$` would also stand before, is gone by then. */
  function SubFinalD(s: string): (r: string)
    ensures |s| > 0 && CharMatchesI(s[|s| - 1], 'd') ==> r == s[..|s| - 1] + "day"
    ensures !(|s| > 0 && CharMatchesI(s[|s| - 1], 'd')) ==> r == s
    ensures NoSpace(s) ==> NoSpace(r)
  {
    if |s| > 0 && CharMatchesI(s[|s| - 1], 'd') then s[..|s| - 1] + "day" else s
  }

  lemma PatternsValid()
    ensures ValidPattern(Pattern("year", "s")) && ValidPattern(Pattern("yr", "s"))
    ensures ValidPattern(Pattern("day", "s")) && ValidPattern(Pattern("hour", "s"))
    ensures ValidPattern(Pattern("h", "rs"))
  {
  }

  /** The symbol steps of `normalize_unit`: strip, superscripts, white space, °C and degC. */
  function NormalizeSymbols(u: string): string
  {
    var s := Strip(u);
    var s := Replace(s, "²", "^2");
    var s := Replace(s, "³", "^3");
    var s := RemoveSpaces(s);
    var s := Replace(s, "°C", "C");
    Replace(s, "degC", "C")
  }

  /** The word steps of `normalize_unit`, case-insensitive: years?, yrs?, days?, d$,
      hours?, hr?s?. */
  function NormalizeWords(s: string): string
  {
    PatternsValid();
    var s := Sub(s, Pattern("year", "s"), "year");
    var s := Sub(s, Pattern("yr", "s"), "year");
    var s := Sub(s, Pattern("day", "s"), "day");
    var s := SubFinalD(s);
    var s := Sub(s, Pattern("hour", "s"), "h");
    Sub(s, Pattern("h", "rs"), "h")
  }

  /** `normalize_unit` on a string. */
  function NormalizeUnit(u: string): string
  {
    NormalizeWords(NormalizeSymbols(u))
  }

  /** The conversion table of `convert_value_unit`, keyed by the normalised unit. */
  function SiTable(u: string, value: real): Option<(real, string)>
  {
    if u == "K" then Some((value, "K"))
    else if u == "C" then Some((value + 273.15, "K"))
    else if u == "m" then Some((value, "m"))
    else if u == "s" then Some((value, "s"))
    else if u == "h" then Some((value * 3600.0, "s"))
    else if u == "day" then Some((value * 86400.0, "s"))
    else if u == "year" then Some((value * 365.0 * 86400.0, "s"))
    else if u == "J/m^3/K" then Some((value, "J/m^3/K"))
    else if u == "kJ/m^3/K" then Some((value * 1000.0, "J/m^3/K"))
    else if u == "MJ/m^3/K" then Some((value * 1000000.0, "J/m^3/K"))
    else if u == "W/m/K" then Some((value, "W/m/K"))
    else if u == "1" then Some((value, "1"))
    else if u == "kg/m^3" then Some((value, "kg/m^3"))
    else if u == "J/kg/K" then Some((value, "J/kg/K"))
    else if u == "cm/day" then Some((value * 0.01 / 86400.0, "m/s"))
    else if u == "m/day" then Some((value / 86400.0, "m/s"))
    else if u == "cm/s" then Some((value * 0.01, "m/s"))
    else if u == "W/m" then Some((value, "W/m"))
    else None
  }

  /** `convert_value_unit(value, unit)`: the value and unit in SI, or both unchanged,
      the unit as given, when the normalised unit is not in the table. */
  function ConvertValueUnit(value: real, unit: string): (real, string)
  {
    match SiTable(NormalizeUnit(unit), value)
    case Some(converted) => converted
    case None => (value, unit)
  }

  /** The normalised units of the table. */
  predicate InTable(u: string) {
    u in {"K", "C", "m", "s", "h", "day", "year", "J/m^3/K", "kJ/m^3/K", "MJ/m^3/K",
          "W/m/K", "1", "kg/m^3", "J/kg/K", "cm/day", "m/day", "cm/s", "W/m"}
  }

  /** The units `convert_value_unit` produces for a unit of the table. */
  predicate SiUnit(u: string) {
    u in {"K", "m", "s", "J/m^3/K", "W/m/K", "1", "kg/m^3", "J/kg/K", "m/s", "W/m"}
  }

  /** A unit of the table comes out as an SI unit; any other comes back verbatim with
      its value. */
  lemma ConvertValueUnitResult(value: real, unit: string)
    ensures InTable(NormalizeUnit(unit)) ==> SiUnit(ConvertValueUnit(value, unit).1)
    ensures !InTable(NormalizeUnit(unit)) ==> ConvertValueUnit(value, unit) == (value, unit)
  {
    SiTableResult(NormalizeUnit(unit), value);
  }

  /** The table answers exactly for its own units, and always with an SI unit. */
  lemma SiTableResult(u: string, value: real)
    ensures SiTable(u, value).Some? <==> InTable(u)
    ensures SiTable(u, value).Some? ==> SiUnit(SiTable(u, value).value.1)
  {
    if u in {"K", "C", "m", "s", "h", "day", "year", "J/m^3/K"} {
    } else if u in {"kJ/m^3/K", "MJ/m^3/K", "W/m/K", "1", "kg/m^3"} {
    } else if u in {"J/kg/K", "cm/day", "m/day", "cm/s", "W/m"} {
    } else {
      assert !InTable(u);
    }
  }

  /** Every SI unit normalises to itself and, but for "m/s", which the table does not
      list, is a table entry that converts by the identity. */
  lemma SiUnitsFixed(value: real, u: string)
    requires SiUnit(u)
    ensures NormalizeUnit(u) == u
    ensures ConvertValueUnit(value, u) == (value, u)
  {
    SiUnitPlain(u);
    PlainNormalizesToItself(u);
    SiTableOnSiUnits(value, u);
  }

  lemma SiTableOnSiUnits(value: real, u: string)
    requires SiUnit(u)
    ensures SiTable(u, value) == if u == "m/s" then None else Some((value, u))
  {
    if u == "K" {
    } else if u == "m" {
    } else if u == "s" {
    } else if u == "J/m^3/K" {
    } else if u == "W/m/K" {
    } else if u == "1" {
    } else if u == "kg/m^3" {
    } else if u == "J/kg/K" {
    } else if u == "m/s" {
    } else {
      assert u == "W/m";
    }
  }

  lemma SiUnitPlain(u: string)
    requires SiUnit(u)
    ensures Plain(u)
  {
    if u in {"K", "m", "s", "1", "m/s"} {
      ShortSiUnitsPlain(u);
    } else {
      LongSiUnitsPlain(u);
    }
  }

  lemma ShortSiUnitsPlain(u: string)
    requires u in {"K", "m", "s", "1", "m/s"}
    ensures Plain(u)
  {
  }

  lemma LongSiUnitsPlain(u: string)
    requires u in {"J/m^3/K", "W/m/K", "kg/m^3", "J/kg/K", "W/m"}
    ensures Plain(u)
  {
    if u in {"J/m^3/K", "W/m/K"} {
    } else {
      assert u in {"kg/m^3", "J/kg/K", "W/m"};
    }
  }

  /** `convert_value_unit` is idempotent: converting its own result changes nothing. */
  lemma ConvertValueUnitIdempotent(value: real, unit: string)
    ensures var (v, u) := ConvertValueUnit(value, unit); ConvertValueUnit(v, u) == (v, u)
  {
    var (v, u) := ConvertValueUnit(value, unit);
    ConvertValueUnitResult(value, unit);
    if InTable(NormalizeUnit(unit)) {
      SiUnitsFixed(v, u);
    }
  }

  /** A unit none of whose characters any normalisation step looks at. */
  predicate Plain(u: string) {
    forall i :: 0 <= i < |u| ==> !IsSpace(u[i]) && !SymbolChar(u[i]) && !WordLetter(u[i])
  }

  /** The characters the symbol steps look at besides white space. */
  predicate SymbolChar(c: char) {
    c == '²' || c == '³' || c == '°' || c == 'd'
  }

  /** The first letters of the word patterns, in either case. */
  predicate WordLetter(c: char) {
    c == 'd' || c == 'D' || c == 'y' || c == 'Y' || c == 'h' || c == 'H'
  }

  lemma AbsentNeverMatches(s: string, w: string)
    requires |w| > 0 && LowerWord(w)
    requires forall k :: 0 <= k < |s| ==> !CharMatchesI(s[k], w[0])
    ensures forall k: nat :: k < |s| ==> !WordMatchesAt(s, k, w)
  {

  }

  /** Normalisation leaves a plain unit as it is. */
  lemma PlainNormalizesToItself(u: string)
    requires Plain(u)
    ensures NormalizeUnit(u) == u
  {
    SymbolsUnchanged(u);
    WordsUnchanged(u);
  }

  /** The replacement texts hold no white space. */
  lemma ReplacementsHaveNoSpace()
    ensures NoSpace("^2") && NoSpace("^3") && NoSpace("C")
    ensures NoSpace("year") && NoSpace("day") && NoSpace("h")
  {
  }

  lemma WordsKeepNoSpace(s: string)
    requires NoSpace(s)
    ensures NoSpace(NormalizeWords(s))
  {
    ReplacementsHaveNoSpace();
    PatternsValid();
    var s1 := Sub(s, Pattern("year", "s"), "year");
    var s2 := Sub(s1, Pattern("yr", "s"), "year");
    var s3 := Sub(s2, Pattern("day", "s"), "day");
    var s4 := SubFinalD(s3);
    var s5 := Sub(s4, Pattern("hour", "s"), "h");
    assert NormalizeWords(s) == Sub(s5, Pattern("h", "rs"), "h");
  }

  /** Normalisation leaves no white space behind. */
  lemma NormalizeHasNoSpace(u: string)
    ensures NoSpace(NormalizeUnit(u))
  {
    ReplacementsHaveNoSpace();
    var s1 := Strip(u);
    var s2 := Replace(s1, "²", "^2");
    var s3 := Replace(s2, "³", "^3");
    var s4 := RemoveSpaces(s3);
    var s5 := Replace(s4, "°C", "C");
    var s6 := Replace(s5, "degC", "C");
    ReplaceKeepsNoSpace(s4, "°C", "C");
    ReplaceKeepsNoSpace(s5, "degC", "C");
    assert NormalizeSymbols(u) == s6;
    WordsKeepNoSpace(s6);
  }
  lemma SubUnchanged(s: string, p: Pattern, rep: string)
    requires ValidPattern(p)
    requires forall k :: 0 <= k < |s| ==> !CharMatchesI(s[k], p.required[0])
    ensures Sub(s, p, rep) == s
  {
    AbsentNeverMatches(s, p.required);
  }

  /** Without the letters d, y and h the word steps change nothing. */
  lemma WordsUnchanged(s: string)
    requires forall k :: 0 <= k < |s| ==> !WordLetter(s[k])
    ensures NormalizeWords(s) == s
  {
    PatternsValid();
    SubUnchanged(s, Pattern("year", "s"), "year");
    SubUnchanged(s, Pattern("yr", "s"), "year");
    SubUnchanged(s, Pattern("day", "s"), "day");
    SubUnchanged(s, Pattern("hour", "s"), "h");
    SubUnchanged(s, Pattern("h", "rs"), "h");
  }

  /** Without white space, superscripts, ° and d the symbol steps change nothing. */
  lemma SymbolsUnchanged(s: string)
    requires NoSpace(s) && forall k :: 0 <= k < |s| ==> !SymbolChar(s[k])
    ensures NormalizeSymbols(s) == s
  {
    ReplaceUnchanged(s, "²", "^2");
    ReplaceUnchanged(s, "³", "^3");
    ReplaceUnchanged(s, "°C", "C");
    ReplaceUnchanged(s, "degC", "C");
  }

  lemma ConvertVia(v: real, unit: string, u: string, expected: (real, string))
    requires NormalizeUnit(unit) == u && SiTable(u, v) == Some(expected)
    ensures ConvertValueUnit(v, unit) == expected
  {
  }

  /** An occurrence at the start is replaced, and the rest is handled after it. */
  lemma ReplaceAtStart(pat: string, b: string, rep: string)
    requires |pat| > 0
    ensures Replace(pat + b, pat, rep) == rep + Replace(b, pat, rep)
  {
    var s := pat + b;
    assert s[..|pat|] == pat;
    assert s[|pat|..] == b;
  }

  /** A first character that does not start the pattern is kept. */
  lemma ReplaceSkipsChar(c: char, t: string, pat: string, rep: string)
    requires |pat| > 0 && c != pat[0]
    ensures Replace([c] + t, pat, rep) == [c] + Replace(t, pat, rep)
  {
    var s := [c] + t;
    if |pat| <= |s| {
      assert s[0..|pat|][0] == c;
    }
    assert s[1..] == t;
  }

  /** A text that does not hold the first character of the pattern is unchanged. */
  lemma {:induction false} ReplaceUnchanged(s: string, pat: string, rep: string)
    requires |pat| > 0 && pat[0] !in s
    ensures Replace(s, pat, rep) == s
    decreases |s|
  {
    if |s| > 0 {
      assert s == [s[0]] + s[1..];
      ReplaceSkipsChar(s[0], s[1..], pat, rep);
      ReplaceUnchanged(s[1..], pat, rep);
    }
  }

  /** A text that is exactly the pattern is replaced whole. */
  lemma ReplaceWhole(pat: string, rep: string)
    requires |pat| > 0
    ensures Replace(pat, pat, rep) == rep
  {
    ReplaceAtStart(pat, "", rep);
    assert pat + "" == pat;
  }

  /** Text before the first occurrence of the pattern is kept as it is. */
  lemma {:induction false} ReplaceAfter(a: string, pat: string, b: string, rep: string)
    requires |pat| > 0 && pat[0] !in a
    ensures Replace(a + pat + b, pat, rep) == a + rep + Replace(b, pat, rep)
    decreases |a|
  {
    if |a| == 0 {
      assert a + pat + b == pat + b;
      ReplaceAtStart(pat, b, rep);
    } else {
      assert a + pat + b == [a[0]] + (a[1..] + pat + b);
      ReplaceSkipsChar(a[0], a[1..] + pat + b, pat, rep);
      ReplaceAfter(a[1..], pat, b, rep);
      assert [a[0]] + a[1..] == a;
    }
  }

  /** A text shorter than the required word never matches. */
  lemma SubTooShort(s: string, p: Pattern, rep: string)
    requires ValidPattern(p) && |s| < |p.required|
    ensures Sub(s, p, rep) == s
  {
    forall k: nat | k < |s| ensures !WordMatchesAt(s, k, p.required) {
      if WordMatchesAt(s, k, p.required) {
        WordMatchFits(s, k, p.required);
      }
    }
  }

  /** A text that is exactly the required word (with none of the optional letters
      after it) is replaced whole. */
  lemma SubWholeWord(s: string, p: Pattern, rep: string)
    requires ValidPattern(p) && |s| == |p.required| && WordMatchesAt(s, 0, p.required)
    ensures Sub(s, p, rep) == rep
  {
    assert MatchLength(s, 0, p) == |s|;
    assert SubFrom(s, |s|, p, rep) == "";
  }

  lemma NormalizeVia(unit: string, mid: string, out: string)
    requires NormalizeSymbols(unit) == mid && NormalizeWords(mid) == out
    ensures NormalizeUnit(unit) == out
  {
  }

  lemma CelsiusSymbols(unit: string)
    requires unit == "°C"
    ensures NormalizeSymbols(unit) == "C"
  {
    assert NoSpace(unit);
    ReplaceUnchanged(unit, "²", "^2");
    ReplaceUnchanged(unit, "³", "^3");
    ReplaceWhole(unit, "C");
    var c := Replace(unit, unit, "C");
    ReplaceUnchanged(c, "degC", "C");
  }

  lemma DegCSymbols(unit: string)
    requires unit == "degC"
    ensures NormalizeSymbols(unit) == "C"
  {
    StripUnchanged(unit);
    ReplaceUnchanged(unit, "²", "^2");
    ReplaceUnchanged(unit, "³", "^3");
    assert NoSpace(unit);
    ReplaceUnchanged(unit, "°C", "C");
    ReplaceWhole(unit, "C");
  }

  lemma StripUnchanged(s: string)
    requires |s| > 0 && !IsSpace(s[0]) && !IsSpace(s[|s| - 1])
    ensures Strip(s) == s
  {
  }

  lemma CelsiusWords(mid: string)
    requires mid == "C"
    ensures NormalizeWords(mid) == "C"
  {
    WordsUnchanged(mid);
  }

  lemma HoursWords(mid: string)
    requires mid == "hours"
    ensures NormalizeWords(mid) == "h"
  {
    PatternsValid();
    SubUnchanged(mid, Pattern("year", "s"), "year");
    SubUnchanged(mid, Pattern("yr", "s"), "year");
    SubUnchanged(mid, Pattern("day", "s"), "day");
    assert SubFinalD(mid) == mid;
    HourWord(mid);
    HWordsTail(Sub(mid, Pattern("hour", "s"), "h"));
  }

  /** "hours" is the word hour with its optional s, replaced whole by h. */
  lemma HourWord(s: string)
    requires s == "hours"
    ensures Sub(s, Pattern("hour", "s"), "h") == "h"
  {
    var p := Pattern("hour", "s");
    PatternsValid();
    WordAt(s, 0, p.required);
    assert OptionalLength(s, 4, p.optional) == 1 by {
      assert CharMatchesI(s[4], 's');
      assert OptionalLength(s, 5, p.optional[1..]) == 0;
    }
    assert MatchLength(s, 0, p) == |s|;
    assert SubFrom(s, |s|, p, "h") == "";
  }

  /** A word spelt out in lower case at position i matches there. */
  lemma {:induction false} WordAt(s: string, i: nat, w: string)
    requires LowerWord(w) && i + |w| <= |s| && s[i..i + |w|] == w
    ensures WordMatchesAt(s, i, w)
    decreases |w|
  {
    if |w| > 0 {
      assert s[i] == w[0];
      assert s[i + 1..i + |w|] == w[1..];
      WordAt(s, i + 1, w[1..]);
    }
  }

  /** "h" is the whole of the last word step. */
  lemma HWordsTail(h: string)
    requires h == "h"
    ensures Sub(h, Pattern("h", "rs"), "h") == h
  {
    PatternsValid();
    SubWholeWord(h, Pattern("h", "rs"), "h");
  }

  lemma DaySymbols(unit: string)
    requires unit == "d"
    ensures NormalizeSymbols(unit) == "d"
  {
    ReplaceUnchanged(unit, "²", "^2");
    ReplaceUnchanged(unit, "³", "^3");
    ReplaceUnchanged(unit, "°C", "C");
    assert Replace(unit, "degC", "C") == unit;
  }

  lemma DayWords(mid: string)
    requires mid == "d"
    ensures NormalizeWords(mid) == "day"
  {
    PatternsValid();
    SubUnchanged(mid, Pattern("year", "s"), "year");
    SubUnchanged(mid, Pattern("yr", "s"), "year");
    SubTooShort(mid, Pattern("day", "s"), "day");
    DayWordsTail(SubFinalD(Sub(Sub(Sub(mid, Pattern("year", "s"), "year"), Pattern("yr", "s"), "year"),
                               Pattern("day", "s"), "day")));
  }

  /** "day" passes the hour steps unchanged. */
  lemma DayWordsTail(d: string)
    requires d == "day"
    ensures Sub(d, Pattern("hour", "s"), "h") == d
    ensures Sub(d, Pattern("h", "rs"), "h") == d
  {
    PatternsValid();
    SubUnchanged(d, Pattern("hour", "s"), "h");
    SubUnchanged(d, Pattern("h", "rs"), "h");
  }

  lemma YearWords(mid: string)
    requires mid == "yr"
    ensures NormalizeWords(mid) == "year"
  {
    PatternsValid();
    SubTooShort(mid, Pattern("year", "s"), "year");
    SubWholeWord(mid, Pattern("yr", "s"), "year");
    YearWordsTail(Sub(Sub(mid, Pattern("year", "s"), "year"), Pattern("yr", "s"), "year"));
  }

  /** "year" passes the remaining word steps unchanged. */
  lemma YearWordsTail(y: string)
    requires y == "year"
    ensures Sub(y, Pattern("day", "s"), "day") == y
    ensures SubFinalD(y) == y
    ensures Sub(y, Pattern("hour", "s"), "h") == y
    ensures Sub(y, Pattern("h", "rs"), "h") == y
  {
    PatternsValid();
    SubUnchanged(y, Pattern("day", "s"), "day");
    YearHourTail(y);
  }

  lemma YearHourTail(y: string)
    requires y == "year"
    ensures Sub(y, Pattern("hour", "s"), "h") == y
    ensures Sub(y, Pattern("h", "rs"), "h") == y
  {
    PatternsValid();
    SubUnchanged(y, Pattern("hour", "s"), "h");
    SubUnchanged(y, Pattern("h", "rs"), "h");
  }

  lemma SuperscriptStrip(unit: string)
    requires unit == " kJ/m³/K"
    ensures Strip(unit) == unit[1..]
  {
    var s := unit[1..];
    assert StripLeft(unit) == StripLeft(s) == s;
  }

  lemma SuperscriptReplace(s: string)
    requires s == "kJ/m³/K"
    ensures Replace(s, "²", "^2") == s
    ensures Replace(s, "³", "^3") == "kJ/m^3/K"
  {
    ReplaceUnchanged(s, "²", "^2");
    var a, b := s[..4], s[5..];
    assert s == a + "³" + b;
    ReplaceAfter(a, "³", b, "^3");
    ReplaceUnchanged(b, "³", "^3");
  }

  lemma SuperscriptSymbols(unit: string)
    requires unit == " kJ/m³/K"
    ensures NormalizeSymbols(unit) == "kJ/m^3/K"
  {
    SuperscriptStrip(unit);
    var s := unit[1..];
    SuperscriptReplace(s);
    var t := Replace(s, "³", "^3");
    assert NoSpace(t);
    ReplaceUnchanged(t, "°C", "C");
    ReplaceUnchanged(t, "degC", "C");
  }

  /** °C and degC convert to kelvin by adding 273.15. */
  lemma CelsiusToKelvin(v: real, unit: string)
    requires unit == "°C" || unit == "degC"
    ensures ConvertValueUnit(v, unit) == (v + 273.15, "K")
  {
    if unit == "°C" {
      CelsiusSymbols(unit);
    } else {
      DegCSymbols(unit);
    }
    var mid := NormalizeSymbols(unit);
    CelsiusWords(mid);
    ConvertVia(v, unit, NormalizeUnit(unit), (v + 273.15, "K"));
  }

  /** "hours" normalises to h and converts to seconds. */
  lemma HoursToSeconds(v: real, unit: string)
    requires unit == "hours"
    ensures ConvertValueUnit(v, unit) == (v * 3600.0, "s")
  {
    HoursNormal(unit);
    HourRow(v, NormalizeUnit(unit));
    ConvertVia(v, unit, NormalizeUnit(unit), (v * 3600.0, "s"));
  }

  lemma HoursNormal(unit: string)
    requires unit == "hours"
    ensures NormalizeUnit(unit) == "h"
  {
    SymbolsUnchanged(unit);
    HoursWords(unit);
  }

  lemma HourRow(v: real, u: string)
    requires u == "h"
    ensures SiTable(u, v) == Some((v * 3600.0, "s"))
  {
  }

  /** A lone "d" becomes day and converts to seconds. */
  lemma DayToSeconds(v: real, unit: string)
    requires unit == "d"
    ensures ConvertValueUnit(v, unit) == (v * 86400.0, "s")
  {
    DaySymbols(unit);
    DayWords(unit);
    ConvertVia(v, unit, NormalizeUnit(unit), (v * 86400.0, "s"));
  }

  /** "yr" becomes year, a year of 365 days. */
  lemma YearToSeconds(v: real, unit: string)
    requires unit == "yr"
    ensures ConvertValueUnit(v, unit) == (v * 365.0 * 86400.0, "s")
  {
    YearNormal(unit);
    YearRow(v, NormalizeUnit(unit));
    ConvertVia(v, unit, NormalizeUnit(unit), (v * 365.0 * 86400.0, "s"));
  }

  lemma YearNormal(unit: string)
    requires unit == "yr"
    ensures NormalizeUnit(unit) == "year"
  {
    SymbolsUnchanged(unit);
    YearWords(unit);
  }

  lemma YearRow(v: real, u: string)
    requires u == "year"
    ensures SiTable(u, v) == Some((v * 365.0 * 86400.0, "s"))
  {
  }

  /** kJ/m³/K, written with a superscript and a leading space, converts to J/m^3/K. */
  lemma SuperscriptHeatCapacity(v: real, unit: string)
    requires unit == " kJ/m³/K"
    ensures ConvertValueUnit(v, unit) == (v * 1000.0, "J/m^3/K")
  {
    HeatCapacityNormal(unit);
    HeatCapacityRow(v, NormalizeUnit(unit));
    ConvertVia(v, unit, NormalizeUnit(unit), (v * 1000.0, "J/m^3/K"));
  }

  lemma HeatCapacityNormal(unit: string)
    requires unit == " kJ/m³/K"
    ensures NormalizeUnit(unit) == "kJ/m^3/K"
  {
    SuperscriptSymbols(unit);
    HeatCapacityWords(NormalizeSymbols(unit));
  }

  lemma HeatCapacityWords(mid: string)
    requires mid == "kJ/m^3/K"
    ensures NormalizeWords(mid) == mid
  {
    HeatCapacityLetters(mid);
    WordsUnchanged(mid);
  }

  lemma HeatCapacityLetters(mid: string)
    requires mid == "kJ/m^3/K"
    ensures forall k :: 0 <= k < |mid| ==> !WordLetter(mid[k])
  {
  }

  lemma HeatCapacityRow(v: real, u: string)
    requires u == "kJ/m^3/K"
    ensures SiTable(u, v) == Some((v * 1000.0, "J/m^3/K"))
  {
  }
}

/** The recursive walk of `convert_to_si` over a parameter tree. */
module ConvertTree {
  import opened Wrappers
  import opened Json
  import opened ConvertToSi
  import Text

  /** The foreign conversions the walk uses: `float(s)` of a string (None where
      Python raises ValueError) and `str(x)` of a float. */
  datatype Foreign = Foreign(parseFloat: string -> Option<real>, floatRepr: real -> string)

  /** `float(val)` for a truthy value: None where Python raises (a list, a dict or an
      unparsable string). */
  function ToFloat(val: Json, f: Foreign): (r: Option<real>)
    ensures val.JFloat? ==> r == Some(val.r)
    ensures val.JInt? ==> r == Some(val.i as real)
    ensures val.JArr? || val.JObj? || val.JNull? ==> r.None?
  {
    match val
    case JNull => None
    case JBool(b) => Some(if b then 1.0 else 0.0)
    case JInt(i) => Some(i as real)
    case JFloat(x) => Some(x)
    case JStr(s) => f.parseFloat(s)
    case JArr(_) => None
    case JObj(_) => None
  }

  /** `str(unit)` for a unit that is a string, an int, a float or a bool. */
  function UnitString(unit: Json, f: Foreign): (r: string)
    requires unit.JStr? || unit.JInt? || unit.JFloat? || unit.JBool?
    ensures unit.JStr? ==> r == unit.s
  {
    match unit
    case JStr(s) => s
    case JInt(i) => Text.IntToString(i)
    case JFloat(x) => f.floatRepr(x)
    case JBool(b) => if b then "True" else "False"
  }

  /** `isinstance(unit, (str, int, float))`; a bool is an int to Python. */
  predicate ScalarUnit(unit: Json) {
    unit.JStr? || unit.JInt? || unit.JFloat? || unit.JBool?
  }

  /** A dict the walk treats as a `{value, unit}` entry. */
  predicate IsQuantity(fields: seq<(string, Json)>) {
    HasKey(fields, "value") && HasKey(fields, "unit") && ScalarUnit(Get(fields, "unit").value)
  }

  /** The converted form of a `{value, unit}` entry, or None when it stays as it is
      (a falsy value or unit, or a value `float` rejects). */
  function ConvertQuantity(fields: seq<(string, Json)>, f: Foreign): (r: Option<Json>)
    requires IsQuantity(fields)
    ensures r.Some? ==> exists v: real, u: string :: r.value == JObj(QuantityFields(v, u))
  {
    var val := Get(fields, "value").value;
    var unit := Get(fields, "unit").value;
    if !Truthy(val) || !Truthy(unit) then None
    else
      match ToFloat(val, f)
      case None => None
      case Some(x) =>
        var (v, u) := ConvertValueUnit(x, UnitString(unit, f));
        Some(JObj(QuantityFields(v, u)))
  }

  /** `convert_to_si(obj)`. */
  function Convert(j: Json, f: Foreign): (r: Json)
    ensures j.JArr? ==> r.JArr? && |r.items| == |j.items|
    ensures j.JObj? ==> r.JObj?
    ensures j.JObj? && !IsQuantity(j.fields) ==>
      |r.fields| == |j.fields| && forall i :: 0 <= i < |j.fields| ==> r.fields[i].0 == j.fields[i].0
    ensures !j.JArr? && !j.JObj? ==> r == j
    decreases j
  {
    match j
    case JArr(items) => JArr(seq(|items|, i requires 0 <= i < |items| => Convert(items[i], f)))
    case JObj(fields) =>
      if IsQuantity(fields) then
        match ConvertQuantity(fields, f)
        case Some(q) => q
        case None => j
      else
        JObj(seq(|fields|, i requires 0 <= i < |fields| => (fields[i].0, Convert(fields[i].1, f))))
    case _ => j
  }

  /** Converting keeps the kind of every value: scalars stay as they are, lists stay
      lists and dicts stay dicts. */
  lemma ConvertKeepsKind(j: Json, f: Foreign)
    ensures ScalarUnit(Convert(j, f)) <==> ScalarUnit(j)
    ensures Convert(j, f).JNull? <==> j.JNull?
  {
  }

  /** Looking a key up in the converted children finds the converted entry. */
  lemma {:induction false} GetConverted(fields: seq<(string, Json)>, key: string, f: Foreign)
    requires !IsQuantity(fields)
    ensures HasKey(Convert(JObj(fields), f).fields, key) <==> HasKey(fields, key)
    ensures HasKey(fields, key) ==>
      Get(Convert(JObj(fields), f).fields, key).value == Convert(Get(fields, key).value, f)
  {
    var out := Convert(JObj(fields), f).fields;
    GetPointwise(fields, out, key, f);
  }

  lemma {:induction false} GetPointwise(fields: seq<(string, Json)>, out: seq<(string, Json)>, key: string, f: Foreign)
    requires |out| == |fields|
    requires forall i :: 0 <= i < |fields| ==> out[i] == (fields[i].0, Convert(fields[i].1, f))
    ensures HasKey(out, key) <==> HasKey(fields, key)
    ensures HasKey(fields, key) ==> Get(out, key).value == Convert(Get(fields, key).value, f)
  {
    if |fields| > 0 {
      GetPointwise(fields[1..], out[1..], key, f);
      assert HasKey(out, key) <==> HasKey(fields, key) by {
        if HasKey(out, key) {
          var i :| 0 <= i < |out| && out[i].0 == key;
          assert fields[i].0 == key;
        }
        if HasKey(fields, key) {
          var i :| 0 <= i < |fields| && fields[i].0 == key;
          assert out[i].0 == key;
        }
      }
    }
  }

  /** The two fields of a converted `{value, unit}` entry. */
  function QuantityFields(v: real, u: string): seq<(string, Json)>
  {
    [("value", JFloat(v)), ("unit", JStr(u))]
  }

  lemma QuantityFieldsLookup(v: real, u: string)
    ensures IsQuantity(QuantityFields(v, u))
    ensures Get(QuantityFields(v, u), "value") == Some(JFloat(v))
    ensures Get(QuantityFields(v, u), "unit") == Some(JStr(u))
  {
    var fields := QuantityFields(v, u);
    assert fields[0].0 == "value" && fields[1].0 == "unit";
    assert fields[1..] == [("unit", JStr(u))];
  }

  /** An entry that `convert_value_unit` produced converts to itself. */
  lemma ConvertedQuantityFixed(x: real, unit: string, f: Foreign)
    ensures var (v, u) := ConvertValueUnit(x, unit);
      Convert(JObj(QuantityFields(v, u)), f) == JObj(QuantityFields(v, u))
  {
    var (v, u) := ConvertValueUnit(x, unit);
    ConvertValueUnitIdempotent(x, unit);
    FixedQuantityStays(v, u, f);
  }

  /** An entry whose value and unit `convert_value_unit` keeps converts to itself. */
  lemma FixedQuantityStays(v: real, u: string, f: Foreign)
    requires ConvertValueUnit(v, u) == (v, u)
    ensures Convert(JObj(QuantityFields(v, u)), f) == JObj(QuantityFields(v, u))
  {
    if v != 0.0 && u != "" {
      TruthyQuantityConverts(v, u, f, (v, u));
    } else {
      FalsyQuantityFieldsStay(v, u, f);
    }
  }

  lemma FalsyQuantityFieldsStay(v: real, u: string, f: Foreign)
    requires v == 0.0 || u == ""
    ensures Convert(JObj(QuantityFields(v, u)), f) == JObj(QuantityFields(v, u))
  {
    QuantityFieldsLookup(v, u);
    FalsyQuantityStays(QuantityFields(v, u), f);
  }

  lemma TruthyQuantityConverts(v: real, u: string, f: Foreign, wu: (real, string))
    requires v != 0.0 && u != "" && wu == ConvertValueUnit(v, u)
    ensures Convert(JObj(QuantityFields(v, u)), f) == JObj(QuantityFields(wu.0, wu.1))
  {
    QuantityFieldsLookup(v, u);
    QuantityConverts(QuantityFields(v, u), f, v, u, wu);
  }

  /** An entry with a falsy value or unit is returned as it is. */
  lemma FalsyQuantityStays(fields: seq<(string, Json)>, f: Foreign)
    requires IsQuantity(fields)
    requires !Truthy(Get(fields, "value").value) || !Truthy(Get(fields, "unit").value)
    ensures Convert(JObj(fields), f) == JObj(fields)
  {
    assert ConvertQuantity(fields, f).None?;
  }

  /** `convert_to_si` is idempotent: a converted tree converts to itself. */
  lemma {:induction false} ConvertIdempotent(j: Json, f: Foreign)
    ensures Convert(Convert(j, f), f) == Convert(j, f)
    decreases j
  {
    match j
    case JArr(items) =>
      var r := Convert(j, f);
      forall i | 0 <= i < |items| ensures Convert(r.items[i], f) == r.items[i] {
        ConvertIdempotent(items[i], f);
      }
    case JObj(fields) =>
      if IsQuantity(fields) {
        match ConvertQuantity(fields, f)
        case Some(q) =>
          var x := ToFloat(Get(fields, "value").value, f).value;
          var unit := UnitString(Get(fields, "unit").value, f);
          ConvertedQuantityFixed(x, unit, f);
        case None =>
      } else {
        var r := Convert(j, f);
        PlainDictStaysPlain(fields, f);
        forall i | 0 <= i < |fields| ensures Convert(r.fields[i].1, f) == r.fields[i].1 {
          ConvertIdempotent(fields[i].1, f);
        }
      }
    case _ =>
  }

  /** A dict that is not a `{value, unit}` entry is not one after conversion either. */
  lemma PlainDictStaysPlain(fields: seq<(string, Json)>, f: Foreign)
    requires !IsQuantity(fields)
    ensures !IsQuantity(Convert(JObj(fields), f).fields)
  {
    GetConverted(fields, "value", f);
    GetConverted(fields, "unit", f);
    if HasKey(fields, "value") && HasKey(fields, "unit") {
      ConvertKeepsKind(Get(fields, "unit").value, f);
    }
  }

  /** A `{value, unit}` entry becomes exactly {value, unit} with the SI value and unit,
      dropping any other key, unless its value or unit is falsy or its value is not a
      number, in which case it is returned as it is. */
  lemma QuantityOutcome(fields: seq<(string, Json)>, f: Foreign)
    requires IsQuantity(fields)
    ensures var val := Get(fields, "value").value;
      var unit := Get(fields, "unit").value;
      if !Truthy(val) || !Truthy(unit) || ToFloat(val, f).None? then
        Convert(JObj(fields), f) == JObj(fields)
      else
        var (v, u) := ConvertValueUnit(ToFloat(val, f).value, UnitString(unit, f));
        Convert(JObj(fields), f) == JObj(QuantityFields(v, u))
  {
  }

  /** A temperature of exactly 0 °C is falsy and stays unconverted: it is not
      turned into 273.15 K. */
  lemma ZeroCelsiusUnconverted(fields: seq<(string, Json)>, f: Foreign)
    requires fields == [("value", JInt(0)), ("unit", JStr("°C"))]
    ensures Convert(JObj(fields), f) == JObj(fields)
  {
    assert fields[0].0 == "value" && fields[1].0 == "unit";
    assert fields[1..] == [("unit", JStr("°C"))];
    assert IsQuantity(fields);
  }

  /** A dict whose first keys are a non-zero float value and a non-empty unit string
      becomes exactly {value, unit} as `convert_value_unit` returns them, whatever
      other keys follow. */
  lemma EntryConverted(v: real, unit: string, extra: seq<(string, Json)>, f: Foreign)
    requires v != 0.0 && unit != ""
    ensures var (w, u) := ConvertValueUnit(v, unit);
      Convert(JObj([("value", JFloat(v)), ("unit", JStr(unit))] + extra), f) == JObj(QuantityFields(w, u))
  {
    var fields := [("value", JFloat(v)), ("unit", JStr(unit))] + extra;
    assert fields[0] == ("value", JFloat(v));
    assert fields[1..][0] == ("unit", JStr(unit));
    assert Get(fields, "value") == Some(JFloat(v));
    assert Get(fields, "unit") == Some(JStr(unit));
    var wu := ConvertValueUnit(v, unit);
    QuantityConverts(fields, f, v, unit, wu);
  }

  lemma QuantityConverts(fields: seq<(string, Json)>, f: Foreign, x: real, s: string, wu: (real, string))
    requires IsQuantity(fields)
    requires Truthy(Get(fields, "value").value) && Truthy(Get(fields, "unit").value)
    requires ToFloat(Get(fields, "value").value, f) == Some(x)
    requires UnitString(Get(fields, "unit").value, f) == s
    requires wu == ConvertValueUnit(x, s)
    ensures Convert(JObj(fields), f) == JObj(QuantityFields(wu.0, wu.1))
  {
    assert ConvertQuantity(fields, f) == Some(JObj(QuantityFields(wu.0, wu.1)));
  }

  /** A non-zero Celsius quantity, whatever other keys it carries, becomes exactly
      {"value": v + 273.15, "unit": "K"}: the extra keys are dropped. */
  lemma CelsiusEntryConverted(v: real, unit: string, extra: seq<(string, Json)>, f: Foreign)
    requires v != 0.0 && unit == "°C"
    ensures Convert(JObj([("value", JFloat(v)), ("unit", JStr(unit))] + extra), f)
      == JObj(QuantityFields(v + 273.15, "K"))
  {
    EntryConverted(v, unit, extra, f);
    CelsiusToKelvin(v, unit);
  }
}
