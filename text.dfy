/** String helpers with the meaning Python gives them: substring search (`t in s`),
    `str.strip()`, `str.upper()`/`str.lower()` restricted to ASCII letters,
    `sep.join(items)` and `str(n)` for integers. */
module Text {

  /** `t` occurs in `s` starting at index `i`. */
  predicate OccursAt(s: string, t: string, i: int) {
    0 <= i && i + |t| <= |s| && s[i..i + |t|] == t
  }

  /** Python's `t in s` on strings: `t` is a contiguous piece of `s`. */
  predicate Contains(s: string, t: string) {
    exists i :: 0 <= i <= |s| - |t| && OccursAt(s, t, i)
  }

  lemma ContainsSelf(s: string)
    ensures Contains(s, s)
  {
    assert OccursAt(s, s, 0);
  }

  /** Being a substring is transitive. */
  lemma ContainsTransitive(s: string, t: string, u: string)
    requires Contains(s, t) && Contains(t, u)
    ensures Contains(s, u)
  {
    var i :| 0 <= i <= |s| - |t| && OccursAt(s, t, i);
    var j :| 0 <= j <= |t| - |u| && OccursAt(t, u, j);
    forall k | 0 <= k < |u|
      ensures s[i + j + k] == u[k]
    {
      assert t[j + k] == u[k];
      assert s[i..i + |t|][j + k] == s[i + j + k];
    }
    assert s[i + j..i + j + |u|] == u;
    assert OccursAt(s, u, i + j);
  }

  /** A substring of the middle part is a substring of the whole. */
  lemma ContainsInMiddle(a: string, b: string, c: string, t: string)
    requires Contains(b, t)
    ensures Contains(a + b + c, t)
  {
    var i :| 0 <= i <= |b| - |t| && OccursAt(b, t, i);
    assert (a + b + c)[|a| + i..|a| + i + |t|] == b[i..i + |t|];
    assert OccursAt(a + b + c, t, |a| + i);
  }

  /** Every character of a substring is a character of the string. */
  lemma ContainsChar(s: string, t: string, k: int)
    requires Contains(s, t) && 0 <= k < |t|
    ensures t[k] in s
  {
    var i :| 0 <= i <= |s| - |t| && OccursAt(s, t, i);
    assert s[i + k] == s[i..i + |t|][k];
  }

  /** A string lacking one character of `t` does not contain `t`. */
  lemma LacksChar(s: string, t: string, k: int)
    requires 0 <= k < |t| && t[k] !in s
    ensures !Contains(s, t)
  {
    if Contains(s, t) {
      ContainsChar(s, t, k);
    }
  }

  // ---------------------------------------------------------------------------
  // Whitespace and `str.strip()`

  /** The characters Python's `str.isspace()` accepts, which `str.strip()` removes. */
  predicate IsSpace(c: char) {
    || '\t' <= c <= '\r'
    || '\U{1C}' <= c <= ' '
    || c == '\U{85}' || c == '\U{A0}' || c == '\U{1680}'
    || '\U{2000}' <= c <= '\U{200A}'
    || c == '\U{2028}' || c == '\U{2029}' || c == '\U{202F}' || c == '\U{205F}' || c == '\U{3000}'
  }

  predicate AllSpace(s: string) {
    forall k :: 0 <= k < |s| ==> IsSpace(s[k])
  }

  /** Where the whitespace run of `s` starting at `i` ends. */
  function SkipSpaces(s: string, i: nat): (j: nat)
    requires i <= |s|
    ensures i <= j <= |s|
    decreases |s| - i
  {
    if i < |s| && IsSpace(s[i]) then SkipSpaces(s, i + 1) else i
  }

  /** Where `s[lo..j]` ends once its trailing whitespace is dropped. */
  function TrimEnd(s: string, lo: nat, j: nat): (k: nat)
    requires lo <= j <= |s|
    ensures lo <= k <= j
    decreases j
  {
    if lo < j && IsSpace(s[j - 1]) then TrimEnd(s, lo, j - 1) else j
  }

  /** `s.rstrip()`: drops the trailing whitespace and keeps the rest. */
  function StripRight(s: string): string {
    s[..TrimEnd(s, 0, |s|)]
  }

  /** `s.strip()`: drops the whitespace at both ends and keeps the middle. */
  function Strip(s: string): string {
    var i := SkipSpaces(s, 0);
    s[i..TrimEnd(s, i, |s|)]
  }

  /** `SkipSpaces` stops exactly at the first non-whitespace character at or after `i`. */
  lemma {:induction false} SkipSpacesExactly(s: string, i: nat, a: nat)
    requires i <= a <= |s|
    ensures SkipSpaces(s, i) == a <==>
              (forall k :: i <= k < a ==> IsSpace(s[k])) && (a < |s| ==> !IsSpace(s[a]))
    decreases a - i
  {
    if i < a {
      if IsSpace(s[i]) {
        SkipSpacesExactly(s, i + 1, a);
      }
    } else if i < |s| && IsSpace(s[i]) {
      assert SkipSpaces(s, i) == SkipSpaces(s, i + 1) > i;
    }
  }

  /** `TrimEnd` stops exactly after the last non-whitespace character of `s[lo..j]`. */
  lemma {:induction false} TrimEndExactly(s: string, lo: nat, j: nat, b: nat)
    requires lo <= b <= j <= |s|
    ensures TrimEnd(s, lo, j) == b <==>
              (forall k :: b <= k < j ==> IsSpace(s[k])) && (lo < b ==> !IsSpace(s[b - 1]))
    decreases j
  {
    if b < j {
      if IsSpace(s[j - 1]) {
        TrimEndExactly(s, lo, j - 1, b);
      }
    } else if lo < j && IsSpace(s[j - 1]) {
      assert TrimEnd(s, lo, j) == TrimEnd(s, lo, j - 1) < j;
    }
  }

  /** The stripped text neither starts nor ends with whitespace, and only
      whitespace was dropped around it. */
  lemma StripShape(s: string)
    ensures var r := Strip(s);
            && (r != [] ==> !IsSpace(r[0]) && !IsSpace(r[|r| - 1]))
            && exists i :: 0 <= i <= |s| - |r| && r == s[i..i + |r|] && AllSpace(s[..i]) && AllSpace(s[i + |r|..])
  {
    var i := SkipSpaces(s, 0);
    var e := TrimEnd(s, i, |s|);
    SkipSpacesExactly(s, 0, i);
    TrimEndExactly(s, i, |s|, e);
    assert Strip(s) == s[i..e];
    assert AllSpace(s[..i]) && AllSpace(s[e..]);
    if i < e {
      assert Strip(s)[0] == s[i] && Strip(s)[e - i - 1] == s[e - 1];
    }
  }

  /** `rstrip` removes exactly a whitespace tail from a text not ending in whitespace. */
  lemma StripRightUnique(m: string, q: string)
    requires AllSpace(q)
    requires m != [] ==> !IsSpace(m[|m| - 1])
    ensures StripRight(m + q) == m
  {
    var s := m + q;
    assert forall k :: |m| <= k < |s| ==> IsSpace(s[k]) by {
      forall k | |m| <= k < |s| ensures IsSpace(s[k]) {
        assert s[k] == q[k - |m|];
      }
    }
    TrimEndExactly(s, 0, |s|, |m|);
    assert s[..|m|] == m;
  }

  /** `strip` gives back exactly the middle of a text padded with whitespace, when
      the middle neither starts nor ends with whitespace. */
  lemma StripUnique(p: string, m: string, q: string)
    requires AllSpace(p) && AllSpace(q)
    requires m != [] ==> !IsSpace(m[0]) && !IsSpace(m[|m| - 1])
    ensures Strip(p + m + q) == m
  {
    var s := p + m + q;
    var a := |p| + |m|;
    if m == [] {
      assert forall k :: 0 <= k < |s| ==> IsSpace(s[k]) by {
        forall k | 0 <= k < |s| ensures IsSpace(s[k]) {
          if k < |p| { assert s[k] == p[k]; } else { assert s[k] == q[k - |p|]; }
        }
      }
      SkipSpacesExactly(s, 0, |s|);
    } else {
      assert forall k :: 0 <= k < |p| ==> IsSpace(s[k]) by {
        forall k | 0 <= k < |p| ensures IsSpace(s[k]) {
          assert s[k] == p[k];
        }
      }
      assert s[|p|] == m[0];
      SkipSpacesExactly(s, 0, |p|);
      assert forall k :: a <= k < |s| ==> IsSpace(s[k]) by {
        forall k | a <= k < |s| ensures IsSpace(s[k]) {
          assert s[k] == q[k - a];
        }
      }
      assert s[a - 1] == m[|m| - 1];
      TrimEndExactly(s, |p|, |s|, a);
      assert s[|p|..a] == m;
    }
  }

  /** Stripping twice strips nothing more. */
  lemma StripIdempotent(s: string)
    ensures Strip(Strip(s)) == Strip(s)
  {
    var r := Strip(s);
    StripShape(s);
    StripUnique([], r, []);
    assert [] + r + [] == r;
  }

  // ---------------------------------------------------------------------------
  // ASCII case mapping

  function UpperChar(c: char): char {
    if 'a' <= c <= 'z' then (c as int - 32) as char else c
  }

  function LowerChar(c: char): char {
    if 'A' <= c <= 'Z' then (c as int + 32) as char else c
  }

  /** `s.upper()` on ASCII letters. */
  function Upper(s: string): (r: string)
    ensures |r| == |s| && forall k :: 0 <= k < |s| ==> r[k] == UpperChar(s[k])
  {
    seq(|s|, k requires 0 <= k < |s| => UpperChar(s[k]))
  }

  /** `s.lower()` on ASCII letters. */
  function Lower(s: string): (r: string)
    ensures |r| == |s| && forall k :: 0 <= k < |s| ==> r[k] == LowerChar(s[k])
  {
    seq(|s|, k requires 0 <= k < |s| => LowerChar(s[k]))
  }

  /** Upper-casing leaves whitespace alone and works piece by piece. */
  lemma UpperPieces(p: string, m: string, q: string)
    requires AllSpace(p) && AllSpace(q)
    ensures Upper(p + m + q) == p + Upper(m) + q
  {
    assert forall k :: 0 <= k < |p| ==> UpperChar(p[k]) == p[k];
    assert forall k :: 0 <= k < |q| ==> UpperChar(q[k]) == q[k];
  }

  /** Lower-casing works piece by piece, so a piece with no capitals survives as a substring. */
  lemma LowerKeepsPiece(a: string, b: string, c: string)
    requires Lower(b) == b
    ensures Contains(Lower(a + b + c), b)
  {
    assert Lower(a + b + c) == Lower(a) + b + Lower(c);
    ContainsSelf(b);
    ContainsInMiddle(Lower(a), b, Lower(c), b);
  }

  /** Lower-casing produces `c` only from `c` itself or, for a lower-case letter, its capital. */
  lemma LowerAvoids(s: string, c: char)
    requires c !in s
    requires 'a' <= c <= 'z' ==> (c as int - 32) as char !in s
    ensures c !in Lower(s)
  {
    forall k | 0 <= k < |s| ensures Lower(s)[k] != c {
      assert s[k] in s;
    }
  }

  // ---------------------------------------------------------------------------
  // `sep.join(items)`

  function Join(items: seq<string>, sep: string): string
    decreases |items|
  {
    if |items| == 0 then ""
    else if |items| == 1 then items[0]
    else items[0] + sep + Join(items[1..], sep)
  }

  lemma JoinPair(x: string, y: string, sep: string)
    ensures Join([x, y], sep) == x + sep + y
  {
    assert [x, y][1..] == [y];
  }

  /** Joining `n >= 1` pieces of width `w` gives `n * w + (n - 1) * |sep|` characters. */
  lemma {:induction false} JoinLength(items: seq<string>, sep: string, w: nat)
    requires |items| >= 1
    requires forall k :: 0 <= k < |items| ==> |items[k]| == w
    ensures |Join(items, sep)| == |items| * w + (|items| - 1) * |sep|
    decreases |items|
  {
    if |items| > 1 {
      JoinLength(items[1..], sep, w);
    }
  }

  /** Every joined piece appears verbatim in the joined string. */
  lemma {:induction false} JoinContains(items: seq<string>, sep: string, k: int)
    requires 0 <= k < |items|
    ensures Contains(Join(items, sep), items[k])
    decreases |items|
  {
    if |items| == 1 {
      ContainsSelf(items[0]);
    } else if k == 0 {
      ContainsSelf(items[0]);
      ContainsInMiddle("", items[0], sep + Join(items[1..], sep), items[0]);
      assert "" + items[0] + (sep + Join(items[1..], sep)) == Join(items, sep);
    } else {
      JoinContains(items[1..], sep, k - 1);
      ContainsInMiddle(items[0] + sep, Join(items[1..], sep), "", items[k]);
      assert items[0] + sep + Join(items[1..], sep) + "" == Join(items, sep);
    }
  }

  // ---------------------------------------------------------------------------
  // `str(n)` for integers

  predicate IsDigit(c: char) {
    '0' <= c <= '9'
  }

  function DigitChar(d: int): (c: char)
    requires 0 <= d < 10
    ensures IsDigit(c)
  {
    ('0' as int + d) as char
  }

  /** Decimal digits of `n`, most significant first, without leading zeros. */
  function NatToString(n: nat): (r: string)
    ensures |r| >= 1 && forall k :: 0 <= k < |r| ==> IsDigit(r[k])
    ensures n > 0 ==> r[0] != '0'
    decreases n
  {
    if n < 10 then [DigitChar(n)] else NatToString(n / 10) + [DigitChar(n % 10)]
  }

  function IntToString(i: int): (r: string)
    ensures |r| >= 1
  {
    if i < 0 then "-" + NatToString(-i) else NatToString(i)
  }
}
