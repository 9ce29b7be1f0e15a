/**
 * The JavaScript string operations the core relies on, written out over
 * `seq<char>`: `split(" ")`, `toLowerCase()`, `trim()`, `includes`
 * (`startsWith` is the sequence prefix `<=`), and the decimal rendering of an array index.
 */
module Strings {

  // ---------------------------------------------------------------------
  // split / join

  /** `s.split(sep)` for a one-character separator: never an empty list. */
  function Split(s: string, sep: char): (fields: seq<string>)
    ensures |fields| >= 1
    ensures forall i :: 0 <= i < |fields| ==> sep !in fields[i]
    decreases |s|
  {
    if s == [] then [""]
    else
      var rest := Split(s[1..], sep);
      if s[0] == sep then [""] + rest
      else [[s[0]] + rest[0]] + rest[1..]
  }

  /** `fields.join(sep)`. */
  function Join(fields: seq<string>, sep: char): string
    requires |fields| >= 1
    decreases |fields|
  {
    if |fields| == 1 then fields[0] else fields[0] + [sep] + Join(fields[1..], sep)
  }

  /** Joining the fields of a split gives back the original string. */
  lemma {:induction false} JoinSplit(s: string, sep: char)
    ensures Join(Split(s, sep), sep) == s
    decreases |s|
  {
    if s != [] {
      JoinSplit(s[1..], sep);
      var rest := Split(s[1..], sep);
      if s[0] != sep && |rest| > 1 {
        assert rest == [rest[0]] + rest[1..];
        assert Join(rest, sep) == rest[0] + [sep] + Join(rest[1..], sep);
        assert ([s[0]] + rest[0]) + [sep] + Join(rest[1..], sep) == [s[0]] + Join(rest, sep);
      } else if s[0] == sep {
        assert [""] + rest == [""] + rest;
        assert Join([""] + rest, sep) == "" + [sep] + Join(rest, sep) by {
          assert ([""] + rest)[1..] == rest;
        }
      }
    }
  }

  /** A string without the separator splits into itself alone. */
  lemma {:induction false} SplitWithoutSeparator(p: string, sep: char)
    requires sep !in p
    ensures Split(p, sep) == [p]
    decreases |p|
  {
    if p != [] {
      SplitWithoutSeparator(p[1..], sep);
      assert [p[0]] + p[1..] == p;
    }
  }

  /** The first separator ends the first field; the rest is split on its own. */
  lemma {:induction false} SplitAtFirstSeparator(p: string, q: string, sep: char)
    requires sep !in p
    ensures Split(p + [sep] + q, sep) == [p] + Split(q, sep)
    decreases |p|
  {
    if p == [] {
      assert p + [sep] + q == [sep] + q;
      assert ([sep] + q)[1..] == q;
    } else {
      SplitAtFirstSeparator(p[1..], q, sep);
      assert (p + [sep] + q)[1..] == p[1..] + [sep] + q;
      assert [p[0]] + p[1..] == p;
    }
  }

  /** Splitting a join of separator-free fields gives back the fields. */
  lemma {:induction false} SplitJoin(fields: seq<string>, sep: char)
    requires |fields| >= 1
    requires forall i :: 0 <= i < |fields| ==> sep !in fields[i]
    ensures Split(Join(fields, sep), sep) == fields
    decreases |fields|
  {
    if |fields| == 1 {
      SplitWithoutSeparator(fields[0], sep);
    } else {
      SplitJoin(fields[1..], sep);
      SplitAtFirstSeparator(fields[0], Join(fields[1..], sep), sep);
      assert [fields[0]] + fields[1..] == fields;
    }
  }

  // ---------------------------------------------------------------------
  // toLowerCase

  /** Lower-casing of one character; only the ASCII letters `A`-`Z` change. */
  function LowerChar(c: char): char
  {
    if 'A' <= c <= 'Z' then (c as int + 32) as char else c
  }

  /** `s.toLowerCase()` restricted to ASCII letters. */
  function Lower(s: string): (r: string)
    ensures |r| == |s|
    ensures forall i :: 0 <= i < |s| ==> r[i] == LowerChar(s[i])
    ensures forall i :: 0 <= i < |r| ==> !('A' <= r[i] <= 'Z')
    ensures forall i :: 0 <= i < |s| && !('A' <= s[i] <= 'Z') ==> r[i] == s[i]
  {
    seq(|s|, i requires 0 <= i < |s| => LowerChar(s[i]))
  }

  /**
   * A scheme lower-cases to `"bearer"` exactly when it is that word with
   * each letter in either case.
   */
  lemma BearerAnyCase(s: string)
    ensures Lower(s) == "bearer" <==>
      |s| == 6 && forall i :: 0 <= i < 6 ==> s[i] == "bearer"[i] || s[i] == "BEARER"[i]
  {
    if Lower(s) == "bearer" {
      forall i | 0 <= i < 6 ensures s[i] == "bearer"[i] || s[i] == "BEARER"[i] {
        assert LowerChar(s[i]) == "bearer"[i];
      }
    }
    if |s| == 6 && forall i :: 0 <= i < 6 ==> s[i] == "bearer"[i] || s[i] == "BEARER"[i] {
      assert forall i :: 0 <= i < 6 ==> Lower(s)[i] == "bearer"[i];
    }
  }

  // ---------------------------------------------------------------------
  // trim

  /**
   * The characters `String.prototype.trim` removes: the ECMAScript
   * WhiteSpace and LineTerminator code points.
   */
  predicate IsSpace(c: char)
  {
    c == '\t' || c == '\n' || c == '\U{000B}' || c == '\U{000C}' || c == '\r' || c == ' '
    || c == '\U{00A0}' || c == '\U{1680}' || ('\U{2000}' <= c <= '\U{200A}')
    || c == '\U{2028}' || c == '\U{2029}' || c == '\U{202F}' || c == '\U{205F}'
    || c == '\U{3000}' || c == '\U{FEFF}'
  }

  predicate AllSpace(s: string)
  {
    forall i :: 0 <= i < |s| ==> IsSpace(s[i])
  }

  /** The first position at or after `i` that does not hold white space, or `|s|`. */
  function SkipSpace(s: string, i: nat): (lo: nat)
    requires i <= |s|
    ensures i <= lo <= |s|
    ensures forall k :: i <= k < lo ==> IsSpace(s[k])
    ensures lo == |s| || !IsSpace(s[lo])
    decreases |s| - i
  {
    if i < |s| && IsSpace(s[i]) then SkipSpace(s, i + 1) else i
  }

  /** The end of `s[lo..j]` once trailing white space is dropped, but never before `lo`. */
  function BackSpace(s: string, lo: nat, j: nat): (hi: nat)
    requires lo <= j <= |s|
    ensures lo <= hi <= j
    ensures forall k :: hi <= k < j ==> IsSpace(s[k])
    ensures hi == lo || !IsSpace(s[hi - 1])
    decreases j
  {
    if j > lo && IsSpace(s[j - 1]) then BackSpace(s, lo, j - 1) else j
  }

  /** `s.trim()`: the part between the leading and the trailing white space. */
  function Trim(s: string): (r: string)
    ensures |r| <= |s|
    ensures r == [] || (!IsSpace(r[0]) && !IsSpace(r[|r| - 1]))
  {
    var lo := SkipSpace(s, 0);
    s[lo..BackSpace(s, lo, |s|)]
  }

  /** `r` is `s` with the all-white-space runs `s[..lo]` and `s[lo + |r|..]` cut off. */
  ghost predicate SpaceFramed(s: string, lo: nat, r: string)
  {
    lo + |r| <= |s| && s[lo..lo + |r|] == r && AllSpace(s[..lo]) && AllSpace(s[lo + |r|..])
  }

  /**
   * Trimming cuts an all-white-space run off each end and nothing else, and
   * what is left neither starts nor ends with white space.
   */
  lemma TrimFrames(s: string)
    ensures exists lo: nat :: SpaceFramed(s, lo, Trim(s))
    ensures Trim(s) == [] || (!IsSpace(Trim(s)[0]) && !IsSpace(Trim(s)[|Trim(s)| - 1]))
  {
    var lo := SkipSpace(s, 0);
    var hi := BackSpace(s, lo, |s|);
    assert SpaceFramed(s, lo, Trim(s));
  }

  /** Trimming leaves nothing exactly when the string is all white space. */
  lemma TrimEmptyIffBlank(s: string)
    ensures Trim(s) == [] <==> AllSpace(s)
  {
  }

  /** A string with no white space at either end is its own trim, whatever white space precedes it. */
  lemma TrimAfterSpace(pad: string, s: string)
    requires AllSpace(pad)
    requires s != [] && !IsSpace(s[0]) && !IsSpace(s[|s| - 1])
    ensures Trim(pad + s) == s
  {
    var x := pad + s;
    SkipSpaceOverPad(x, |pad|, 0);
    assert x[|x| - 1] == s[|s| - 1];
    assert x[|pad|..] == s;
  }

  lemma {:induction false} SkipSpaceOverPad(x: string, n: nat, i: nat)
    requires i <= n < |x| && !IsSpace(x[n])
    requires forall k :: i <= k < n ==> IsSpace(x[k])
    ensures SkipSpace(x, i) == n
    decreases n - i
  {
  }

  /** Trimming twice is trimming once. */
  lemma TrimIdempotent(s: string)
    ensures Trim(Trim(s)) == Trim(s)
  {
  }

  // ---------------------------------------------------------------------
  // includes

  /** `sub` occurs in `s` starting at position `i`. */
  predicate OccursAt(s: string, sub: string, i: nat)
  {
    i + |sub| <= |s| && s[i..i + |sub|] == sub
  }

  /** `s.includes(sub)`, searching from the front. */
  predicate Contains(s: string, sub: string): (r: bool)
    ensures sub == [] ==> r
    decreases |s|
  {
    sub <= s || (s != [] && Contains(s[1..], sub))
  }

  /** The search finds `sub` exactly when it occurs at some position of `s`. */
  lemma {:induction false} ContainsIffOccurs(s: string, sub: string)
    ensures Contains(s, sub) <==> exists i: nat | i <= |s| :: OccursAt(s, sub, i)
    decreases |s|
  {
    OccursAtStart(s, sub);
    if sub <= s {
    } else if s != [] {
      ContainsIffOccurs(s[1..], sub);
      if i: nat :| i <= |s[1..]| && OccursAt(s[1..], sub, i) {
        OccursShift(s, sub, i);
      }
      if i: nat :| i <= |s| && OccursAt(s, sub, i) {
        assert i != 0;
        OccursShift(s, sub, i - 1);
      }
    }
  }

  lemma OccursAtStart(s: string, sub: string)
    ensures OccursAt(s, sub, 0) <==> sub <= s
  {
  }

  /** An occurrence in the tail is an occurrence one position later in the whole. */
  lemma OccursShift(s: string, sub: string, i: nat)
    requires s != []
    ensures OccursAt(s[1..], sub, i) <==> OccursAt(s, sub, i + 1)
  {
    if i + 1 + |sub| <= |s| {
      assert s[1..][i..i + |sub|] == s[i + 1..i + 1 + |sub|];
    }
  }

  // ---------------------------------------------------------------------
  // decimal rendering of an array index

  function DigitChar(d: nat): (c: char)
    requires d < 10
    ensures '0' <= c <= '9' && c as int - '0' as int == d
  {
    ('0' as int + d) as char
  }

  /** The canonical decimal numeral of `n`, as `for ... in` yields array keys. */
  function Decimal(n: nat): (r: string)
    ensures |r| >= 1
    ensures forall i :: 0 <= i < |r| ==> '0' <= r[i] <= '9'
    ensures r[0] == '0' <==> n == 0
    ensures |r| > 1 ==> r[0] != '0'
    decreases n
  {
    if n < 10 then [DigitChar(n)] else Decimal(n / 10) + [DigitChar(n % 10)]
  }

  /** The value of a numeral, most significant digit first. */
  function DecimalValue(s: string): nat
    requires forall i :: 0 <= i < |s| ==> '0' <= s[i] <= '9'
    decreases |s|
  {
    if s == [] then 0
    else DecimalValue(s[..|s| - 1]) * 10 + (s[|s| - 1] as int - '0' as int)
  }

  /** Reading back the numeral of `n` gives `n`. */
  lemma {:induction false} DecimalRoundTrip(n: nat)
    ensures DecimalValue(Decimal(n)) == n
    decreases n
  {
    var r := Decimal(n);
    if n >= 10 {
      DecimalRoundTrip(n / 10);
      assert r[..|r| - 1] == Decimal(n / 10);
    }
  }

  /** Distinct indices have distinct numerals. */
  lemma DecimalInjective(m: nat, n: nat)
    requires Decimal(m) == Decimal(n)
    ensures m == n
  {
    DecimalRoundTrip(m);
    DecimalRoundTrip(n);
  }
}
