/**
 * The few PHP string operations the referral plugin relies on, with the
 * meaning PHP gives them: trim() with its default character list, the
 * falsiness of a string (what `empty($s)` and `if (!$s)` test), and the
 * position of a character (what `strstr($s, "?")` looks for).
 */
module PhpString {

  /** The characters PHP's trim() strips when no list is given: space, tab,
      newline, carriage return, NUL and vertical tab. */
  predicate IsTrimmable(c: char) {
    c == ' ' || c == '\t' || c == '\n' || c == '\r' || c == '\0' || c == '\U{B}'
  }

  /** A string PHP treats as false: only "" and "0". */
  predicate IsFalsy(s: string) {
    s == "" || s == "0"
  }

  /** How many trimmable characters `s` starts with. */
  function LeadingTrimmable(s: string): (n: nat)
    ensures n <= |s|
    ensures forall k :: 0 <= k < n ==> IsTrimmable(s[k])
    ensures n < |s| ==> !IsTrimmable(s[n])
  {
    if s != [] && IsTrimmable(s[0]) then 1 + LeadingTrimmable(s[1..]) else 0
  }

  /** How many trimmable characters `s` ends with. */
  function TrailingTrimmable(s: string): (n: nat)
    ensures n <= |s|
    ensures forall k :: |s| - n <= k < |s| ==> IsTrimmable(s[k])
    ensures n < |s| ==> !IsTrimmable(s[|s| - n - 1])
  {
    if s != [] && IsTrimmable(s[|s| - 1]) then 1 + TrailingTrimmable(s[..|s| - 1]) else 0
  }

  /** PHP's trim(): the piece of `s` left after cutting every trimmable
      character off both ends (TrimCutsOnlyTrimmable says exactly which). */
  function Trim(s: string): (r: string)
    ensures |r| <= |s|
    ensures r == [] || (!IsTrimmable(r[0]) && !IsTrimmable(r[|r| - 1]))
  {
    var i := LeadingTrimmable(s);
    if i == |s| then ""
    else
      var t := TrailingTrimmable(s);
      assert i < |s| - t;
      s[i..|s| - t]
  }

  /** What trim() keeps is a contiguous piece of `s`, and everything it cuts
      away on either side is trimmable. */
  lemma TrimCutsOnlyTrimmable(s: string)
    ensures var r, i := Trim(s), LeadingTrimmable(s);
            && i + |r| <= |s| && r == s[i..i + |r|]
            && (forall k :: 0 <= k < i ==> IsTrimmable(s[k]))
            && (forall k :: i + |r| <= k < |s| ==> IsTrimmable(s[k]))
  {
    var i := LeadingTrimmable(s);
    if i < |s| {
      var t := TrailingTrimmable(s);
      assert i < |s| - t;
    }
  }

  /** A string with no trimmable character at either end is left as it is. */
  lemma {:induction false} TrimKeepsTrimmed(s: string)
    requires s == [] || (!IsTrimmable(s[0]) && !IsTrimmable(s[|s| - 1]))
    ensures Trim(s) == s
  {
    if s != [] {
      assert LeadingTrimmable(s) == 0 && TrailingTrimmable(s) == 0;
    }
  }

  /** Trimming twice is trimming once. */
  lemma TrimIdempotent(s: string)
    ensures Trim(Trim(s)) == Trim(s)
  {
    TrimKeepsTrimmed(Trim(s));
  }

  /** The position of the first occurrence of `c` in `s`. */
  function IndexOf(s: string, c: char): (i: nat)
    requires c in s
    ensures i < |s| && s[i] == c && c !in s[..i]
  {
    if s[0] == c then 0
    else
      var j := IndexOf(s[1..], c);
      assert s[..j + 1] == [s[0]] + s[1..][..j];
      j + 1
  }

  /** The first occurrence is the only index that holds `c` with no `c`
      before it. */
  lemma {:induction false} IndexOfUnique(s: string, c: char, i: nat)
    requires i < |s| && s[i] == c && c !in s[..i]
    ensures IndexOf(s, c) == i
  {
    if i > 0 {
      assert s[0] in s[..i];
      assert s[1..][..i - 1] == s[1..i];
      assert forall x :: x in s[1..i] ==> x in s[..i];
      IndexOfUnique(s[1..], c, i - 1);
    }
  }

  /** Searching a concatenation finds the first part's occurrence if there is
      one, and otherwise the second part's, shifted by the first's length. */
  lemma IndexOfAppend(a: string, b: string, c: char)
    requires c in a + b
    ensures c in a ==> IndexOf(a + b, c) == IndexOf(a, c)
    ensures c !in a ==> c in b && IndexOf(a + b, c) == |a| + IndexOf(b, c)
  {
    if c in a {
      var j := IndexOf(a, c);
      assert (a + b)[..j] == a[..j];
      IndexOfUnique(a + b, c, j);
    } else {
      var k :| 0 <= k < |a + b| && (a + b)[k] == c;
      assert b[k - |a|] == c;
      var j := IndexOf(b, c);
      assert (a + b)[..|a| + j] == a + b[..j];
      IndexOfUnique(a + b, c, |a| + j);
    }
  }

  /** The part of a URL before its fragment: everything before the first
      '#', or the whole URL when it has none. */
  function BeforeFragment(url: string): (r: string)
    ensures |r| <= |url| && r == url[..|r|] && '#' !in r
    ensures '#' !in url ==> r == url
  {
    if '#' in url then url[..IndexOf(url, '#')] else url
  }

  /** The query component of a URL, as section 3.4 of RFC 3986 delimits it:
      the text after the first '?' up to the fragment, or "" when no '?'
      comes before the fragment. A '?' inside the fragment starts no query. */
  function QueryString(url: string): string {
    var p := BeforeFragment(url);
    if '?' in p then p[IndexOf(p, '?') + 1..] else ""
  }

  /** A '?' appended to a URL without one or a fragment starts its query,
      which is then exactly the appended text, when that has no '#'. */
  lemma QueryAfterQuestionMark(base: string, rest: string)
    requires '?' !in base && '#' !in base && '#' !in rest
    ensures QueryString(base + (['?'] + rest)) == rest
  {
    var tail := ['?'] + rest;
    assert '#' !in base + tail;
    assert (base + tail)[|base|] == '?';
    IndexOfAppend(base, tail, '?');
    IndexOfUnique(tail, '?', 0);
    assert (base + tail)[|base| + 1..] == rest;
  }

  /** Text without a '#' appended to a URL that has a query and no fragment
      extends that query. */
  lemma QueryExtends(base: string, tail: string)
    requires '?' in base && '#' !in base && '#' !in tail
    ensures QueryString(base + tail) == QueryString(base) + tail
  {
    assert '#' !in base + tail;
    IndexOfAppend(base, tail, '?');
    var i := IndexOf(base, '?');
    assert (base + tail)[i + 1..] == base[i + 1..] + tail;
  }

  /** Text appended to a URL that has a fragment lands in the fragment: the
      query is what it was. */
  lemma {:induction false} FragmentHidesAppended(base: string, tail: string)
    requires '#' in base
    ensures QueryString(base + tail) == QueryString(base)
  {
    IndexOfAppend(base, tail, '#');
    var k := IndexOf(base, '#');
    assert (base + tail)[..k] == base[..k];
  }
}
