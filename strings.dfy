/** The JavaScript string operations the monument service relies on:
    `includes`, `split` on one character, `Array.prototype.join`, and the
    decimal rendering of an integer inside a template literal. */
module Strings {
  import opened Values

  /** p occurs in s starting at position i. */
  predicate OccursAt(s: string, p: string, i: int)
  {
    0 <= i && i + |p| <= |s| && s[i..i + |p|] == p
  }

  /** `s.includes(p)`: p occurs in s at some position. */
  predicate Contains(s: string, p: string)
  {
    exists i | 0 <= i <= |s| :: OccursAt(s, p, i)
  }

  /** p occurs in any string that has it between two others. */
  lemma ContainsInMiddle(a: string, p: string, b: string)
    ensures Contains(a + p + b, p)
  {
    assert (a + p + b)[|a|..|a| + |p|] == p;
    assert OccursAt(a + p + b, p, |a|);
  }

  /** An occurrence in a tail is an occurrence in the whole. */
  lemma ContainsInTail(a: string, b: string, p: string)
    requires Contains(b, p)
    ensures Contains(a + b, p)
  {
    var i :| 0 <= i <= |b| && OccursAt(b, p, i);
    assert (a + b)[|a| + i..|a| + i + |p|] == b[i..i + |p|];
    assert OccursAt(a + b, p, |a| + i);
  }

  /** Every occurrence of p uses only characters of s. */
  lemma ContainsHasChar(s: string, p: string, c: char)
    requires Contains(s, p) && c in p
    ensures c in s
  {
    var i :| 0 <= i <= |s| && OccursAt(s, p, i);
    var k :| 0 <= k < |p| && p[k] == c;
    assert s[i..i + |p|][k] == s[i + k];
  }

  /** An occurrence inside an occurrence is an occurrence in the whole. */
  lemma ContainsTransitive(s: string, m: string, p: string)
    requires Contains(s, m) && Contains(m, p)
    ensures Contains(s, p)
  {
    var i :| 0 <= i <= |s| && OccursAt(s, m, i);
    var j :| 0 <= j <= |m| && OccursAt(m, p, j);
    var w := s[i + j..i + j + |p|];
    forall t | 0 <= t < |p|
      ensures w[t] == p[t]
    {
      assert w[t] == s[i..i + |m|][j + t] == m[j..j + |p|][t];
    }
    assert w == p;
    assert OccursAt(s, p, i + j);
  }

  /** A pattern with a character the text lacks does not occur in it. */
  lemma NotContainsWithoutChar(s: string, p: string, c: char)
    requires c in p && c !in s
    ensures !Contains(s, p)
  {
    if Contains(s, p) {
      ContainsHasChar(s, p, c);
      assert false;
    }
  }

  /** No pattern occurs in a shorter text. */
  lemma NotContainsLonger(s: string, p: string)
    requires |s| < |p|
    ensures !Contains(s, p)
  {
  }

  /** Each character an occurrence covers is a character of the pattern. */
  lemma OccurrenceCovers(s: string, p: string, i: int, j: int)
    requires OccursAt(s, p, i) && i <= j < i + |p|
    ensures s[j] in p
  {
    assert s[i..i + |p|][j - i] == s[j];
  }

  /** A pattern free of the character d cannot straddle an occurrence of d:
      it lies wholly to its left or wholly to its right. */
  lemma ContainsAcross(a: string, d: char, b: string, p: string)
    requires d !in p
    requires Contains(a + [d] + b, p)
    ensures Contains(a, p) || Contains(b, p)
  {
    var s := a + [d] + b;
    var i :| 0 <= i <= |s| && OccursAt(s, p, i);
    if |p| == 0 {
      assert OccursAt(a, p, 0);
    } else if i + |p| <= |a| {
      assert a[i..i + |p|] == s[i..i + |p|];
      assert OccursAt(a, p, i);
    } else if i > |a| {
      var j := i - |a| - 1;
      assert b[j..j + |p|] == s[i..i + |p|];
      assert OccursAt(b, p, j);
    } else {
      OccurrenceCovers(s, p, i, |a|);
      assert false;
    }
  }

  /** A pattern without the character d occurs neither left nor right of d
      only if it does not occur in the whole. */
  lemma NotContainsCut(a: string, d: char, b: string, p: string)
    requires d !in p && !Contains(a, p) && !Contains(b, p)
    ensures !Contains(a + [d] + b, p)
  {
    if Contains(a + [d] + b, p) {
      ContainsAcross(a, d, b, p);
      assert false;
    }
  }

  /** `parts.join(sep)`. */
  function Join(parts: seq<string>, sep: string): string
  {
    if |parts| == 0 then ""
    else if |parts| == 1 then parts[0]
    else parts[0] + sep + Join(parts[1..], sep)
  }

  /** Every piece occurs in the joined text. */
  lemma {:induction false} JoinContainsPart(parts: seq<string>, sep: string, k: nat)
    requires k < |parts|
    ensures Contains(Join(parts, sep), parts[k])
    decreases |parts|
  {
    if |parts| == 1 {
      ContainsInMiddle([], parts[0], []);
      assert [] + parts[0] + [] == parts[0];
    } else {
      var rest := Join(parts[1..], sep);
      if k == 0 {
        ContainsInMiddle([], parts[0], sep + rest);
        assert [] + parts[0] + (sep + rest) == parts[0] + sep + rest;
      } else {
        JoinContainsPart(parts[1..], sep, k - 1);
        ContainsInTail(parts[0] + sep, rest, parts[k]);
      }
    }
  }

  /** No piece holds p. */
  predicate PiecesAvoid(parts: seq<string>, p: string)
  {
    forall k :: 0 <= k < |parts| ==> !Contains(parts[k], p)
  }

  lemma PiecesAvoidConcat(a: seq<string>, b: seq<string>, p: string)
    requires PiecesAvoid(a, p) && PiecesAvoid(b, p)
    ensures PiecesAvoid(a + b, p)
  {
    assert forall k :: |a| <= k < |a + b| ==> (a + b)[k] == b[k - |a|];
  }

  /** Joined with a separator that starts and ends with a character p lacks
      and does not hold p itself, pieces that avoid p give a text that avoids
      p: no occurrence can straddle a separator. */
  lemma {:induction false} JoinAvoids(parts: seq<string>, d: char, mid: string, p: string)
    requires d !in p && !Contains(mid, p)
    requires |parts| > 0 && PiecesAvoid(parts, p)
    ensures !Contains(Join(parts, [d] + mid + [d]), p)
    decreases |parts|
  {
    if |parts| > 1 {
      var sep := [d] + mid + [d];
      var rest := Join(parts[1..], sep);
      JoinAvoids(parts[1..], d, mid, p);
      NotContainsCut(mid, d, rest, p);
      assert parts[0] + sep + rest == parts[0] + [d] + (mid + [d] + rest);
      NotContainsCut(parts[0], d, mid + [d] + rest, p);
    }
  }

  /** `s.split(sep)` for a one-character separator: the pieces between the
      separators, never fewer than one, and joining them back gives s. */
  function Split(s: string, sep: char): (parts: seq<string>)
    ensures |parts| >= 1
    ensures forall k :: 0 <= k < |parts| ==> sep !in parts[k]
    ensures Join(parts, [sep]) == s
    ensures |parts| > 1 <==> sep in s
    decreases |s|
  {
    if s == [] then [""]
    else
      var rest := Split(s[1..], sep);
      if s[0] == sep then
        var r := [""] + rest;
        assert r[1..] == rest;
        r
      else
        var r := [[s[0]] + rest[0]] + rest[1..];
        assert |rest| > 1 ==> Join(rest, [sep]) == rest[0] + [sep] + Join(rest[1..], [sep]);
        assert r[1..] == rest[1..];
        r
  }

  /** A separator-free string is a single piece. */
  lemma {:induction false} SplitWithoutSeparator(a: string, sep: char)
    requires sep !in a
    ensures Split(a, sep) == [a]
    decreases |a|
  {
    if a != [] {
      SplitWithoutSeparator(a[1..], sep);
    }
  }

  /** Splitting at the first separator: the piece before it, then the rest. */
  lemma {:induction false} SplitAtFirst(a: string, sep: char, b: string)
    requires sep !in a
    ensures Split(a + [sep] + b, sep) == [a] + Split(b, sep)
    decreases |a|
  {
    var s := a + [sep] + b;
    if a == [] {
      assert s[1..] == b;
    } else {
      assert s[1..] == a[1..] + [sep] + b;
      SplitAtFirst(a[1..], sep, b);
      assert [a[0]] + a[1..] == a;
    }
  }

  /** Split undoes Join on separator-free pieces. */
  lemma {:induction false} SplitJoin(parts: seq<string>, sep: char)
    requires |parts| >= 1
    requires forall k :: 0 <= k < |parts| ==> sep !in parts[k]
    ensures Split(Join(parts, [sep]), sep) == parts
    decreases |parts|
  {
    if |parts| == 1 {
      SplitWithoutSeparator(parts[0], sep);
    } else {
      SplitJoin(parts[1..], sep);
      SplitAtFirst(parts[0], sep, Join(parts[1..], [sep]));
      assert [parts[0]] + parts[1..] == parts;
    }
  }

  predicate IsDigits(s: string)
  {
    forall k :: 0 <= k < |s| ==> '0' <= s[k] <= '9'
  }

  function DigitChar(d: nat): (c: char)
    requires d < 10
    ensures '0' <= c <= '9' && c as int - '0' as int == d
  {
    ('0' as int + d) as char
  }

  /** Decimal digits of n, most significant first, without leading zeros. */
  function NatToString(n: nat): (s: string)
    ensures |s| >= 1 && IsDigits(s)
    ensures |s| > 1 ==> s[0] != '0'
    decreases n
  {
    if n < 10 then [DigitChar(n)] else NatToString(n / 10) + [DigitChar(n % 10)]
  }

  /** `${i}` for an integer i: an optional minus sign, then the digits. */
  function IntToString(i: int): string
  {
    if i < 0 then "-" + NatToString(-i) else NatToString(i)
  }

  /** The value of a string of decimal digits. */
  function DigitsValue(s: string): nat
    requires IsDigits(s)
    decreases |s|
  {
    if s == [] then 0 else DigitsValue(s[..|s| - 1]) * 10 + (s[|s| - 1] as int - '0' as int)
  }

  /** Reads a decimal integer literal, as the data service reads the bounds of
      a `>=` or `<=` clause: an optional minus sign followed by digits. */
  function ParseInteger(s: string): Option<int>
  {
    if |s| > 1 && s[0] == '-' && IsDigits(s[1..]) then Some(-(DigitsValue(s[1..]) as int))
    else if |s| > 0 && IsDigits(s) then Some(DigitsValue(s))
    else None
  }

  lemma {:induction false} NatToStringValue(n: nat)
    ensures DigitsValue(NatToString(n)) == n
    decreases n
  {
    if n >= 10 {
      NatToStringValue(n / 10);
      var s := NatToString(n / 10) + [DigitChar(n % 10)];
      assert s[..|s| - 1] == NatToString(n / 10);
    }
  }

  /** A minus sign followed by digits reads as the negated value of the digits. */
  lemma ParseNegative(t: string)
    requires |t| >= 1 && IsDigits(t)
    ensures ParseInteger("-" + t) == Some(-(DigitsValue(t) as int))
  {
    var s := "-" + t;
    assert s[0] == '-' && s[1..] == t;
  }

  /** Digits alone read as their value. */
  lemma ParseNonNegative(t: string)
    requires |t| >= 1 && IsDigits(t)
    ensures ParseInteger(t) == Some(DigitsValue(t))
  {
    assert '0' <= t[0] <= '9';
  }

  /** The rendering of an integer reads back as that integer. */
  lemma IntToStringRoundTrip(i: int)
    ensures ParseInteger(IntToString(i)) == Some(i)
  {
    if i < 0 {
      var t := NatToString(-i);
      NatToStringValue(-i);
      ParseNegative(t);
      assert -(DigitsValue(t) as int) == i;
    } else {
      var t := NatToString(i);
      NatToStringValue(i);
      ParseNonNegative(t);
    }
  }
}
