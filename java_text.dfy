/**
  The small part of java.lang.String that the converters rely on, over
  Dafny strings. A Java reference that may be null is an Option.
 */
module JavaText {

  datatype Option<+T> = None | Some(value: T)

  /** `s.startsWith(p)` */
  predicate StartsWith(s: string, p: string) {
    |p| <= |s| && s[..|p|] == p
  }

  /** `s.endsWith(p)` */
  predicate EndsWith(s: string, p: string) {
    |p| <= |s| && s[|s| - |p|..] == p
  }

  /** `s.contains(t)`: some suffix of `s` starts with `t`. */
  predicate Contains(s: string, t: string)
    decreases |s|
  {
    StartsWith(s, t) || (|s| > 0 && Contains(s[1..], t))
  }

  /** `s.indexOf(c)`, -1 when `c` does not occur. */
  function IndexOf(s: string, c: char): (r: int)
    ensures -1 <= r < |s|
    ensures r >= 0 ==> s[r] == c && c !in s[..r]
    ensures r == -1 <==> c !in s
    decreases |s|
  {
    if |s| == 0 then -1
    else if s[0] == c then 0
    else
      var k := IndexOf(s[1..], c);
      if k < 0 then -1 else k + 1
  }

  /** `s.replace(t, rep)` for a non-empty literal `t`: every occurrence,
      scanning left to right without overlap, is replaced. */
  function Replace(s: string, t: string, rep: string): string
    requires |t| > 0
    decreases |s|
  {
    if |s| < |t| then s
    else if s[..|t|] == t then rep + Replace(s[|t|..], t, rep)
    else [s[0]] + Replace(s[1..], t, rep)
  }

  /** `Character.toLowerCase` on the ASCII letters; every other character is kept. */
  function LowerChar(c: char): char {
    if 'A' <= c <= 'Z' then (c as int + 32) as char else c
  }

  /** `s.toLowerCase()` */
  function ToLower(s: string): (r: string)
    ensures |r| == |s|
    ensures forall i :: 0 <= i < |s| ==> r[i] == LowerChar(s[i])
  {
    seq(|s|, i requires 0 <= i < |s| => LowerChar(s[i]))
  }

  /** `a.equalsIgnoreCase(b)` */
  predicate EqualsIgnoreCase(a: string, b: string) {
    ToLower(a) == ToLower(b)
  }

  /** What Java's string concatenation prints for a possibly-null string. */
  function Show(s: Option<string>): string {
    if s.Some? then s.value else "null"
  }

  // ---------------------------------------------------------------------
  // Facts about the primitives, used by the cleaners' lemmas.

  lemma {:induction false} ContainsAt(s: string, t: string, i: nat)
    requires i + |t| <= |s| && s[i..i + |t|] == t
    ensures Contains(s, t)
    decreases i
  {
    if i > 0 {
      assert s[1..][i - 1..i - 1 + |t|] == s[i..i + |t|];
      ContainsAt(s[1..], t, i - 1);
    } else {
      assert s[..|t|] == s[0..|t|];
    }
  }

  lemma {:induction false} ContainsWitness(s: string, t: string) returns (i: nat)
    requires Contains(s, t)
    ensures i + |t| <= |s| && s[i..i + |t|] == t
    decreases |s|
  {
    if StartsWith(s, t) {
      i := 0;
      assert s[0..|t|] == s[..|t|];
    } else {
      var j := ContainsWitness(s[1..], t);
      i := j + 1;
      assert s[i..i + |t|] == s[1..][j..j + |t|];
    }
  }

  /** A non-empty token is found in `s` exactly when its first character
      opens an occurrence; in particular `s` contains that character. */
  lemma ContainsHasFirstChar(s: string, t: string)
    requires |t| > 0 && Contains(s, t)
    ensures t[0] in s
  {
    var i := ContainsWitness(s, t);
    assert s[i] == s[i..i + |t|][0];
  }

  /** Replacing a token that does not occur leaves the string unchanged. */
  lemma {:induction false} ReplaceAbsent(s: string, t: string, rep: string)
    requires |t| > 0 && !Contains(s, t)
    ensures Replace(s, t, rep) == s
    decreases |s|
  {
    if |s| >= |t| {
      assert !StartsWith(s, t);
      assert |s| > 0 && !Contains(s[1..], t);
      ReplaceAbsent(s[1..], t, rep);
      assert [s[0]] + s[1..] == s;
    }
  }

  /** A token with no border (no proper prefix that is also a suffix)
      appended once to a string free of it is exactly what replace removes. */
  predicate Borderless(t: string) {
    forall k :: 0 < k < |t| ==> t[..k] != t[|t| - k..]
  }

  lemma {:induction false} ReplaceAfter(d: string, t: string, e: string, rep: string)
    requires |t| > 0 && Borderless(t) && !Contains(d, t)
    ensures Replace(d + t + e, t, rep) == d + rep + Replace(e, t, rep)
    decreases |d|
  {
    var s := d + t + e;
    if |d| == 0 {
      assert s == t + e;
      assert s[..|t|] == t && s[|t|..] == e;
    } else {
      var d' := d[1..];
      NoEarlyOccurrence(d, t);
      assert s[..|t|] == (d + t)[..|t|];
      assert !Contains(d', t);
      calc {
        Replace(s, t, rep);
        == { ReplaceSkips(s, t, rep); }
        [s[0]] + Replace(s[1..], t, rep);
        == { assert s[1..] == d' + t + e; }
        [d[0]] + Replace(d' + t + e, t, rep);
        == { ReplaceAfter(d', t, e, rep); }
        [d[0]] + (d' + rep + Replace(e, t, rep));
        == { assert d == [d[0]] + d'; }
        d + rep + Replace(e, t, rep);
      }
    }
  }

  lemma ReplaceSkips(s: string, t: string, rep: string)
    requires 0 < |t| <= |s| && s[..|t|] != t
    ensures Replace(s, t, rep) == [s[0]] + Replace(s[1..], t, rep)
  {
  }

  /** A string that differs from a token at some index before the token's end does not start with it. */
  lemma NotStartsWithAt(s: string, p: string, k: nat)
    requires k < |p| && k < |s| && s[k] != p[k]
    ensures !StartsWith(s, p)
  {
    if |p| <= |s| {
      assert s[..|p|][k] == s[k];
    }
  }

  /** A string whose last character differs from a token's does not end with it. */
  lemma NotEndsWithByLast(s: string, p: string)
    requires 0 < |p| && 0 < |s| && s[|s| - 1] != p[|p| - 1]
    ensures !EndsWith(s, p)
  {
    if |p| <= |s| {
      assert s[|s| - |p|..][|p| - 1] == s[|s| - 1];
    }
  }

  lemma ReplaceTrailing(d: string, t: string)
    requires |t| > 0 && Borderless(t) && !Contains(d, t)
    ensures Replace(d + t, t, "") == d
  {
    ReplaceAfter(d, t, [], "");
    assert d + t + [] == d + t;
  }

  /** A string lacking the first character of a token does not contain it. */
  lemma AbsentByFirstChar(s: string, t: string)
    requires |t| > 0 && t[0] !in s
    ensures !Contains(s, t)
  {
    if Contains(s, t) {
      ContainsHasFirstChar(s, t);
    }
  }

  /** With `d` non-empty and free of a borderless token, `d + t` does not start with `t`. */
  lemma NoEarlyOccurrence(d: string, t: string)
    requires |d| > 0 && |t| > 0 && Borderless(t) && !Contains(d, t)
    ensures (d + t)[..|t|] != t
  {
    var s := d + t;
    if |d| >= |t| {
      assert s[..|t|] == d[..|t|];
      assert !StartsWith(d, t);
    } else {
      var k := |t| - |d|;
      assert t[..k] != t[|t| - k..];
      assert s[..|t|][|d|..] == t[..k];
      assert t[|d|..] == t[|t| - k..];
    }
  }

  /** A string that starts with a token and has no further occurrence loses just that prefix. */
  lemma ReplaceLeading(t: string, d: string)
    requires |t| > 0 && !Contains(d, t)
    ensures Replace(t + d, t, "") == d
  {
    var s := t + d;
    assert s[..|t|] == t && s[|t|..] == d;
    ReplaceAbsent(d, t, "");
  }

  /** `indexOf` finds the first occurrence. */
  lemma {:induction false} IndexOfFirst(s: string, c: char, i: nat)
    requires i < |s| && s[i] == c && c !in s[..i]
    ensures IndexOf(s, c) == i
    decreases i
  {
    if i > 0 {
      assert s[0] == s[..i][0];
      assert s[1..][..i - 1] == s[..i][1..];
      IndexOfFirst(s[1..], c, i - 1);
    }
  }

  /** Every occurrence of a token puts its `k`-th character at or after index `k`. */
  lemma ContainsCharAt(s: string, t: string, k: nat)
    requires k < |t| && Contains(s, t)
    ensures k <= |s| && t[k] in s[k..]
  {
    var i := ContainsWitness(s, t);
    assert s[i + k] == s[i..i + |t|][k];
    assert s[k..][i] == s[i + k];
  }

  /** A token whose `k`-th character is missing from `s[k..]` does not occur in `s`. */
  lemma AbsentByCharAt(s: string, t: string, k: nat)
    requires k < |t| && (k <= |s| ==> t[k] !in s[k..])
    ensures !Contains(s, t)
  {
    if Contains(s, t) {
      ContainsCharAt(s, t, k);
    }
  }
}
