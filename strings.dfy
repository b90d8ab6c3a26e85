/** Character strings as the front end uses them: `std::string::find`,
    `std::string::substr` and the view a C function (`printf("%s")`,
    `strlen`) has of a string. One `char` stands for one C `char` (byte). */
module Strings {

  datatype Option<T> = None | Some(value: T) {
    /** The value if present, otherwise `d`. */
    function GetOr(d: T): T {
      if Some? then value else d
    }
  }

  /** A C string: the bytes before its terminating NUL (argv entries are such). */
  type CArg = s: string | '\0' !in s

  /** `needle` occurs in `s` starting at index `j`. */
  predicate OccursAt(s: string, needle: string, j: nat) {
    j + |needle| <= |s| && s[j..j + |needle|] == needle
  }

  /** `needle` occurs in `s` at some index at or after `from`. */
  ghost predicate OccursFrom(s: string, needle: string, from: nat) {
    exists j: nat :: from <= j && OccursAt(s, needle, j)
  }

  /** `k` is the index of the first occurrence of `needle` in `s`. */
  ghost predicate FirstAt(s: string, needle: string, k: nat) {
    OccursAt(s, needle, k) && forall j: nat :: j < k ==> !OccursAt(s, needle, j)
  }

  /** The search loop of `s.find(needle, from)`: the candidate position
      `from` has matched its first `k` characters so far. */
  function Search(s: string, needle: string, from: nat, k: nat): Option<nat>
    requires k <= |needle|
    decreases |s| - from, |needle| - k
  {
    if |s| < from + |needle| then None
    else if k == |needle| then Some(from)
    else if s[from + k] == needle[k] then Search(s, needle, from, k + 1)
    else Search(s, needle, from + 1, 0)
  }

  /** `s.find(needle, from)`: the least index at or after `from` where `needle`
      occurs; `None` plays the part of `std::string::npos`, which is also the
      answer when `from` is past the end (FindIsFirstOccurrence). */
  function Find(s: string, needle: string, from: nat): Option<nat> {
    Search(s, needle, from, 0)
  }

  /** From a candidate whose first `k` characters match, `Search` finds the
      first occurrence at or after it, and `None` exactly when there is none. */
  lemma {:induction false} SearchIsFirstOccurrence(s: string, needle: string, from: nat, k: nat)
    requires k <= |needle| && from + k <= |s| && s[from..from + k] == needle[..k]
    ensures Search(s, needle, from, k).Some? ==>
              from <= Search(s, needle, from, k).value && OccursAt(s, needle, Search(s, needle, from, k).value)
    ensures Search(s, needle, from, k).Some? ==>
              forall j: nat :: from <= j < Search(s, needle, from, k).value ==> !OccursAt(s, needle, j)
    ensures Search(s, needle, from, k).None? <==> !OccursFrom(s, needle, from)
    decreases |s| - from, |needle| - k
  {
    if |s| < from + |needle| {
    } else if k == |needle| {
      assert OccursAt(s, needle, from);
    } else if s[from + k] == needle[k] {
      assert s[from..from + k + 1] == s[from..from + k] + [s[from + k]];
      assert needle[..k + 1] == needle[..k] + [needle[k]];
      SearchIsFirstOccurrence(s, needle, from, k + 1);
    } else {
      assert s[from..from + |needle|][k] != needle[k];
      assert !OccursAt(s, needle, from);
      SearchIsFirstOccurrence(s, needle, from + 1, 0);
      assert OccursFrom(s, needle, from) ==> OccursFrom(s, needle, from + 1);
    }
  }

  /** `Find` answers with the first occurrence at or after `from`, and with
      `None` exactly when there is none. */
  lemma FindIsFirstOccurrence(s: string, needle: string, from: nat)
    ensures Find(s, needle, from).Some? ==>
              from <= Find(s, needle, from).value && OccursAt(s, needle, Find(s, needle, from).value)
    ensures Find(s, needle, from).Some? ==>
              forall j: nat :: from <= j < Find(s, needle, from).value ==> !OccursAt(s, needle, j)
    ensures Find(s, needle, from).None? <==> !OccursFrom(s, needle, from)
  {
    if from <= |s| {
      SearchIsFirstOccurrence(s, needle, from, 0);
    } else {
      assert Find(s, needle, from) == None;
    }
  }

  /** A position `Find` answers with leaves room for the needle. */
  lemma FindInRange(s: string, needle: string, from: nat)
    ensures Find(s, needle, from).Some? ==>
              from <= Find(s, needle, from).value && Find(s, needle, from).value + |needle| <= |s|
  {
    FindIsFirstOccurrence(s, needle, from);
  }

  /** `s.find(needle, 0) != npos`. */
  predicate Contains(s: string, needle: string) {
    Find(s, needle, 0).Some?
  }

  /** A string that contains `a + b` contains `a`: this is why `--xlsb`
      also passes the `--xls` test and `--odfxml` the `--odf` test. */
  lemma {:induction false} ContainsPrefixOf(s: string, a: string, b: string)
    requires Contains(s, a + b)
    ensures Contains(s, a)
  {
    FindIsFirstOccurrence(s, a + b, 0);
    FindIsFirstOccurrence(s, a, 0);
    var j := Find(s, a + b, 0).value;
    assert s[j..j + |a|] == s[j..j + |a + b|][..|a|];
    assert (a + b)[..|a|] == a;
    assert OccursAt(s, a, j);
  }

  /** The characters a C library function sees in `s`: everything before
      the first NUL. */
  function CStr(s: string): (r: string)
    ensures r <= s
    ensures '\0' !in r
    ensures |r| < |s| ==> s[|r|] == '\0'
  {
    if s == [] || s[0] == '\0' then [] else [s[0]] + CStr(s[1..])
  }

  /** A string without NUL is its own C view. */
  lemma CStrOfCArg(s: CArg)
    ensures CStr(s) == s
  {
  }
}
