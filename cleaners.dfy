/**
  The cell cleaners of the POR converter: identifier, date, categorical
  value, age and site normalisation. Each is a total, ordered list of rules
  over one cell; only `CleanDate` can throw, on a cell made only of spaces.
 */
module Cleaners {
  import opened JavaText

  /** A Java call that either returns a value or throws an unchecked exception. */
  datatype Try<+T> = Returns(value: T) | Throws

  /** Identifier cleaner: null for a `NULL` marker, otherwise the first of these
      rules that applies: drop every `RT` when the id starts with `RT`; drop every
      `DA`, `CA`, `GA` or `RiO` when the id ends with it; cut before the first `M`
      when the id contains `MH`. Anything else passes through. */
  function CleanIdentifier(id: string): (r: Option<string>)
    ensures r.None? <==> Contains(id, "NULL")
    ensures r.Some? ==> |r.value| <= |id|
    ensures (!Contains(id, "NULL") && !StartsWith(id, "RT") && !EndsWith(id, "DA")
             && !EndsWith(id, "CA") && !EndsWith(id, "GA") && !EndsWith(id, "RiO")
             && !Contains(id, "MH")) ==> r == Some(id)
  {
    if Contains(id, "NULL") then None
    else if StartsWith(id, "RT") then ReplaceShortens(id, "RT"); Some(Replace(id, "RT", ""))
    else if EndsWith(id, "DA") then ReplaceShortens(id, "DA"); Some(Replace(id, "DA", ""))
    else if EndsWith(id, "CA") then ReplaceShortens(id, "CA"); Some(Replace(id, "CA", ""))
    else if EndsWith(id, "GA") then ReplaceShortens(id, "GA"); Some(Replace(id, "GA", ""))
    else if EndsWith(id, "RiO") then ReplaceShortens(id, "RiO"); Some(Replace(id, "RiO", ""))
    else if Contains(id, "MH") then
      ContainsHasFirstChar(id, "MH");
      Some(id[..IndexOf(id, 'M')])
    else Some(id)
  }

  /** Removing a token never lengthens a string. */
  lemma {:induction false} ReplaceShortens(s: string, t: string)
    requires |t| > 0
    ensures |Replace(s, t, "")| <= |s|
    decreases |s|
  {
    if |s| >= |t| {
      if s[..|t|] == t {
        ReplaceShortens(s[|t|..], t);
      } else {
        ReplaceShortens(s[1..], t);
      }
    }
  }

  /** Date cleaner: a value with a space keeps the text before its first space
      (tested before the null marker); otherwise a `NULL` marker becomes null and
      anything else passes through. `s.split(" ")` drops trailing empty tokens, so
      on a cell made only of spaces the array is empty and `tokens[0]` throws. */
  function CleanDate(s: string): (r: Try<Option<string>>)
    ensures r.Throws? <==> ' ' in s && forall i :: 0 <= i < |s| ==> s[i] == ' '
    ensures r == Returns(None) <==> ' ' !in s && Contains(s, "NULL")
    ensures ' ' !in s && !Contains(s, "NULL") ==> r == Returns(Some(s))
    ensures ' ' in s && r.Returns? ==>
              r.value.Some? && ' ' !in r.value.value && StartsWith(s, r.value.value + " ")
  {
    if ' ' in s then
      if forall i :: 0 <= i < |s| ==> s[i] == ' ' then Throws
      else
        var k := IndexOf(s, ' ');
        assert s[..k + 1] == s[..k] + " ";
        Returns(Some(s[..k]))
    else if Contains(s, "NULL") then Returns(None)
    else Returns(Some(s))
  }

  /** Categorical cleaner: null for a `NULL` marker, the two spellings of
      face-to-face folded to `F2F` and `NonF2F`, anything else unchanged. */
  function CleanValue(s: string): (r: Option<string>)
    ensures r.None? <==> Contains(s, "NULL")
    ensures r.Some? ==> r.value == s || r.value == "F2F" || r.value == "NonF2F"
  {
    if Contains(s, "NULL") then None
    else if EqualsIgnoreCase(s, "f2f") then Some("F2F")
    else if EqualsIgnoreCase(s, "nF2f") then Some("NonF2F")
    else Some(s)
  }

  /** Age of a row (column 2) truncated at its first `.`: the longest prefix
      without a dot. */
  function RoundAge(line: seq<string>): (r: string)
    requires |line| > 2
    ensures '.' !in r && StartsWith(line[2], r)
    ensures |r| < |line[2]| ==> line[2][|r|] == '.'
  {
    var a := line[2];
    if '.' in a then a[..IndexOf(a, '.')] else a
  }

  const Luton := "Luton"
  const TowerHamlet := "Tower Hamlet"
  const Norfolk := "Norfolk"
  const Suffolk := "Suffolk"

  /** Site of a patient id or locality: the `LT` and `TH` id prefixes, then the
      county names found case-insensitively; anything else unchanged. */
  function GetSite(s: string): (r: string)
    ensures r == s || r in {Luton, TowerHamlet, Suffolk, Norfolk}
  {
    if StartsWith(s, "LT") then Luton
    else if StartsWith(s, "TH") then TowerHamlet
    else if Contains(ToLower(s), "suffolk") then Suffolk
    else if Contains(ToLower(s), "norfolk") then Norfolk
    else if Contains(ToLower(s), "norwich") then Norfolk
    else if Contains(ToLower(s), "yarmouth") then Norfolk
    else s
  }

  // ---------------------------------------------------------------------
  // Properties of the identifier cleaner.

  /** The `RT` site prefix is removed from an id that has no other `RT`. */
  lemma CleanIdentifierDropsPrefix(d: string)
    requires !Contains(d, "RT") && 'N' !in d
    ensures CleanIdentifier("RT" + d) == Some(d)
  {
    var id := "RT" + d;
    AbsentByFirstChar(id, "NULL");
    assert id[..2] == "RT";
    ReplaceLeading("RT", d);
  }

  lemma SuffixTokensBorderless(t: string)
    requires t == "DA" || t == "CA" || t == "GA" || t == "RiO"
    ensures Borderless(t)
  {
    forall k | 0 < k < |t|
      ensures t[..k] != t[|t| - k..]
    {
      assert t[..k][0] == t[0] != t[|t| - k..][0];
    }
  }

  /** A suffix rule removes its token from an id that ends with it; which rule
      fires is fixed by the order `DA`, `CA`, `GA`, `RiO`, and all of them yield
      to the `RT` prefix rule. */
  lemma CleanIdentifierDropsSuffix(d: string, t: string)
    requires t == "DA" || t == "CA" || t == "GA" || t == "RiO"
    requires 'N' !in d && !StartsWith(d + t, "RT") && !Contains(d, t)
    requires t == "CA" ==> !EndsWith(d + t, "DA")
    requires t == "GA" ==> !EndsWith(d + t, "DA") && !EndsWith(d + t, "CA")
    requires t == "RiO" ==> !EndsWith(d + t, "DA") && !EndsWith(d + t, "CA") && !EndsWith(d + t, "GA")
    ensures CleanIdentifier(d + t) == Some(d)
  {
    var id := d + t;
    assert 'N' !in t;
    assert 'N' !in id;
    AbsentByFirstChar(id, "NULL");
    assert id[|id| - |t|..] == t;
    SuffixTokensBorderless(t);
    ReplaceTrailing(d, t);
  }

  /** An id with `MH` is cut before its first `M`, whatever follows. */
  lemma CleanIdentifierCutsAtFirstM(d: string, rest: string)
    requires 'M' !in d && 'N' !in d && 'N' !in rest
    requires !StartsWith(d + "MH" + rest, "RT")
    requires !EndsWith(d + "MH" + rest, "DA") && !EndsWith(d + "MH" + rest, "CA")
    requires !EndsWith(d + "MH" + rest, "GA") && !EndsWith(d + "MH" + rest, "RiO")
    ensures CleanIdentifier(d + "MH" + rest) == Some(d)
  {
    var id := d + "MH" + rest;
    assert !Contains(id, "NULL") by {
      assert 'N' !in id;
      AbsentByFirstChar(id, "NULL");
    }
    assert Contains(id, "MH") by {
      assert id[|d|..|d| + 2] == "MH";
      ContainsAt(id, "MH", |d|);
    }
    assert id[..|d|] == d;
    assert IndexOf(id, 'M') == |d| by {
      IndexOfFirst(id, 'M', |d|);
    }
    CleanIdentifierCut(id);
  }

  /** The last rule: an id that no earlier rule matches and that holds `MH`. */
  lemma CleanIdentifierCut(id: string)
    requires !Contains(id, "NULL") && !StartsWith(id, "RT")
    requires !EndsWith(id, "DA") && !EndsWith(id, "CA") && !EndsWith(id, "GA") && !EndsWith(id, "RiO")
    requires Contains(id, "MH")
    ensures 'M' in id && CleanIdentifier(id) == Some(id[..IndexOf(id, 'M')])
  {
    ContainsHasFirstChar(id, "MH");
  }

  // Worked examples. Each takes the cell as a parameter equal to the literal,
  // which keeps the verifier from evaluating the cleaner on the literal itself.

  /** Site prefix: `RT2550527` becomes `2550527`. */
  lemma ExampleSitePrefix(id: string)
    requires id == "RT2550527"
    ensures CleanIdentifier(id) == Some("2550527")
  {
    assert id == "RT" + "2550527";
    AbsentByFirstChar("2550527", "RT");
    CleanIdentifierDropsPrefix("2550527");
  }

  /** System suffix: `1150471DA` loses its `DA`. */
  lemma ExampleDaSuffix(id: string)
    requires id == "1150471DA"
    ensures CleanIdentifier(id) == Some("1150471")
  {
    assert id == "1150471" + "DA";
    NotStartsWithAt(id, "RT", 0);
    AbsentByFirstChar("1150471", "DA");
    CleanIdentifierDropsSuffix("1150471", "DA");
  }

  /** System suffix: `1022464RiO` loses its `RiO`. */
  lemma ExampleRioSuffix(id: string)
    requires id == "1022464RiO"
    ensures CleanIdentifier(id) == Some("1022464")
  {
    assert id == "1022464" + "RiO";
    NotStartsWithAt(id, "RT", 0);
    NotEndsWithByLast(id, "DA");
    NotEndsWithByLast(id, "CA");
    NotEndsWithByLast(id, "GA");
    AbsentByFirstChar("1022464", "RiO");
    CleanIdentifierDropsSuffix("1022464", "RiO");
  }

  /** Mental-health referral ids: `1022464MHRef1` is cut to `1022464`. */
  lemma ExampleMentalHealthRef(id: string)
    requires id == "1022464MHRef1"
    ensures CleanIdentifier(id) == Some("1022464")
  {
    assert id == "1022464" + "MH" + "Ref1";
    NotStartsWithAt(id, "RT", 0);
    NotEndsWithByLast(id, "DA");
    NotEndsWithByLast(id, "CA");
    NotEndsWithByLast(id, "GA");
    NotEndsWithByLast(id, "RiO");
    CleanIdentifierCutsAtFirstM("1022464", "Ref1");
  }

  /** There is no separator rule: an activity id with underscores is kept whole. */
  lemma ExampleUnderscoresKept(id: string)
    requires id == "5_C_2480976"
    ensures CleanIdentifier(id) == Some(id)
  {
    AbsentByFirstChar(id, "NULL");
    AbsentByFirstChar(id, "MH");
    NotStartsWithAt(id, "RT", 0);
    NotEndsWithByLast(id, "DA");
    NotEndsWithByLast(id, "CA");
    NotEndsWithByLast(id, "GA");
    NotEndsWithByLast(id, "RiO");
  }

  /** Only the first applicable rule fires: an `RT` id ending in `DA` keeps
      the `DA`, although the `DA` rule would have matched it too. */
  lemma ExampleFirstRuleOnly(id: string)
    requires id == "RT1150471DA"
    ensures EndsWith(id, "DA")
    ensures CleanIdentifier(id) == Some("1150471DA") && EndsWith(CleanIdentifier(id).value, "DA")
  {
    var d := "1150471DA";
    assert id == "RT" + d && 'N' !in d;
    assert id[9..] == "DA" && d[7..] == "DA";
    AbsentByFirstChar(d, "RT");
    CleanIdentifierDropsPrefix(d);
  }

  /** The token is removed everywhere, not only at the end. */
  lemma ExampleEveryOccurrence(id: string)
    requires id == "12DA34DA"
    ensures CleanIdentifier(id) == Some("1234")
  {
    assert id == "12" + "DA" + ("34" + "DA");
    assert id[|id| - 2..] == "DA";
    AbsentByFirstChar(id, "NULL");
    NotStartsWithAt(id, "RT", 0);
    SuffixTokensBorderless("DA");
    AbsentByFirstChar("12", "DA");
    AbsentByFirstChar("34", "DA");
    ReplaceAfter("12", "DA", "34" + "DA", "");
    ReplaceTrailing("34", "DA");
    assert "12" + "" + "34" == "1234";
  }

  // ---------------------------------------------------------------------
  // Properties of the other cleaners.

  /** Cleaning a cleaned categorical value changes nothing. */
  lemma CleanValueIdempotent(s: string)
    requires CleanValue(s).Some?
    ensures CleanValue(CleanValue(s).value) == CleanValue(s)
  {
    var v := CleanValue(s).value;
    if v == "F2F" {
      assert EqualsIgnoreCase(v, "f2f");
    } else if v == "NonF2F" {
      assert ToLower(v)[0] != ToLower("f2f")[0];
      assert |ToLower(v)| != |ToLower("nF2f")|;
      assert v[1..] == "onF2F";
      AbsentByCharAt(v, "NULL", 1);
    }
  }

  /** Both spellings of face-to-face are folded whatever their case. */
  lemma ExampleFaceToFace(a: string, b: string, c: string)
    requires a == "f2F" && b == "NF2F" && c == "Telephone"
    ensures CleanValue(a) == Some("F2F")
    ensures CleanValue(b) == Some("NonF2F")
    ensures CleanValue(c) == Some("Telephone")
  {
    AbsentByFirstChar(a, "NULL");
    AbsentByFirstChar(c, "NULL");
    assert ToLower(a) == "f2f";
    assert ToLower(b) == "nf2f";
    assert |ToLower(c)| != |ToLower("f2f")| && |ToLower(c)| != |ToLower("nF2f")|;
    assert b[1..] == "F2F";
    AbsentByCharAt(b, "NULL", 1);
  }

  /** A date with a time keeps the date. */
  lemma ExampleDateTime(d: string)
    requires d == "11/04/16 15:00"
    ensures CleanDate(d) == Returns(Some("11/04/16"))
  {
    assert d[8] == ' ' && d[0] != ' ';
    IndexOfFirst(d, ' ', 8);
    assert d[..8] == "11/04/16";
  }

  /** The null marker is tested after the split, so `NULL 15:00` yields the
      text `NULL` rather than null. */
  lemma ExampleNullWithTime(n: string)
    requires n == "NULL 15:00"
    ensures CleanDate(n) == Returns(Some("NULL"))
  {
    assert n[4] == ' ' && n[0] != ' ';
    IndexOfFirst(n, ' ', 4);
    assert n[..4] == "NULL";
  }

  /** A cell of spaces makes the cleaner throw. */
  lemma ExampleBlankDateThrows(blank: string)
    requires blank == "  "
    ensures CleanDate(blank) == Throws
  {
    assert blank[0] == ' ';
  }

  /** The site of a site is itself. */
  lemma GetSiteIdempotent(s: string)
    ensures GetSite(GetSite(s)) == GetSite(s)
  {
    var r := GetSite(s);
    if r == Luton {
      LutonIsFixed(r);
    } else if r == TowerHamlet {
      TowerHamletIsFixed(r);
    } else if r == Suffolk {
      SuffolkIsFixed(r);
    } else if r == Norfolk {
      NorfolkIsFixed(r);
    }
  }

  lemma LutonIsFixed(r: string)
    requires r == Luton
    ensures GetSite(r) == r
  {
    NotStartsWithAt(r, "LT", 1);
    NotStartsWithAt(r, "TH", 0);
    var l := ToLower(r);
    assert l == "luton" && l[2..] == "ton";
    AbsentByFirstChar(l, "suffolk");
    AbsentByCharAt(l, "norfolk", 2);
    AbsentByCharAt(l, "norwich", 2);
    AbsentByFirstChar(l, "yarmouth");
  }

  lemma TowerHamletIsFixed(r: string)
    requires r == TowerHamlet
    ensures GetSite(r) == r
  {
    NotStartsWithAt(r, "LT", 0);
    NotStartsWithAt(r, "TH", 1);
    assert ToLower(r) == "tower hamlet";
    TowerHamletNames(ToLower(r));
  }

  lemma TowerHamletNames(l: string)
    requires l == "tower hamlet"
    ensures !Contains(l, "suffolk") && !Contains(l, "norfolk")
    ensures !Contains(l, "norwich") && !Contains(l, "yarmouth")
  {
    AbsentByFirstChar(l, "suffolk");
    AbsentByFirstChar(l, "norfolk");
    AbsentByFirstChar(l, "norwich");
    AbsentByFirstChar(l, "yarmouth");
  }

  lemma SuffolkIsFixed(r: string)
    requires r == Suffolk
    ensures GetSite(r) == r
  {
    NotStartsWithAt(r, "LT", 0);
    NotStartsWithAt(r, "TH", 0);
    var l := ToLower(r);
    assert l == "suffolk";
    ContainsAt(l, "suffolk", 0);
  }

  lemma NorfolkIsFixed(r: string)
    requires r == Norfolk
    ensures GetSite(r) == r
  {
    NotStartsWithAt(r, "LT", 0);
    NotStartsWithAt(r, "TH", 0);
    var l := ToLower(r);
    assert l == "norfolk";
    AbsentByFirstChar(l, "suffolk");
    ContainsAt(l, "norfolk", 0);
  }

  /** The id prefixes win over the county names. */
  lemma ExampleIdPrefixWins(a: string)
    requires a == "LTSuffolk"
    ensures GetSite(a) == Luton
  {
    assert a[..2] == "LT";
  }

  /** The Norfolk towns count as Norfolk. */
  lemma ExampleTownIsNorfolk(b: string)
    requires b == "Great Yarmouth"
    ensures GetSite(b) == Norfolk
  {
    NotStartsWithAt(b, "LT", 0);
    NotStartsWithAt(b, "TH", 0);
    assert ToLower(b) == "great yarmouth";
    GreatYarmouthNames(ToLower(b));
  }

  lemma GreatYarmouthNames(l: string)
    requires l == "great yarmouth"
    ensures !Contains(l, "suffolk") && !Contains(l, "norfolk") && !Contains(l, "norwich")
    ensures Contains(l, "yarmouth")
  {
    AbsentByFirstChar(l, "suffolk");
    AbsentByFirstChar(l, "norfolk");
    AbsentByFirstChar(l, "norwich");
    assert l[6..14] == "yarmouth";
    ContainsAt(l, "yarmouth", 6);
  }
}
