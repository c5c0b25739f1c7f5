/** The small part of Go's `strings` and `fmt` packages the feed parser relies on,
    stated over `string` (a sequence of Unicode scalar values). */
module Strings {

  /** Go's `unicode.IsSpace`: the characters with the Unicode White_Space property. */
  predicate IsSpace(c: char)
  {
    || c == ' ' || c == '\t' || c == '\n' || c == '\U{0B}' || c == '\U{0C}' || c == '\r'
    || c == '\U{85}' || c == '\U{A0}' || c == '\U{1680}'
    || ('\U{2000}' <= c <= '\U{200A}')
    || c == '\U{2028}' || c == '\U{2029}' || c == '\U{202F}' || c == '\U{205F}' || c == '\U{3000}'
  }

  predicate AllSpace(s: string)
  {
    forall i :: 0 <= i < |s| ==> IsSpace(s[i])
  }

  /** Neither the first nor the last character is white space. */
  predicate NoSpaceAtEnds(s: string)
  {
    |s| == 0 || (!IsSpace(s[0]) && !IsSpace(s[|s| - 1]))
  }

  /** Drops the leading white space: what is left is a suffix of `s`. */
  function TrimLeft(s: string): (r: string)
    ensures |r| <= |s|
    ensures forall c :: c in r ==> c in s
    ensures |r| == 0 || !IsSpace(r[0])
    decreases |s|
  {
    if |s| > 0 && IsSpace(s[0]) then TrimLeft(s[1..]) else s
  }

  /** Drops the trailing white space: what is left is a prefix of `s`. */
  function TrimRight(s: string): (r: string)
    ensures |r| <= |s|
    ensures forall c :: c in r ==> c in s
    ensures |r| > 0 ==> r[0] == s[0]
    ensures |r| == 0 || !IsSpace(r[|r| - 1])
    decreases |s|
  {
    if |s| > 0 && IsSpace(s[|s| - 1]) then TrimRight(s[..|s| - 1]) else s
  }

  /** Go's `strings.TrimSpace`. */
  function TrimSpace(s: string): (r: string)
    ensures NoSpaceAtEnds(r)
    ensures |r| <= |s|
    ensures forall c :: c in r ==> c in s
  {
    TrimRight(TrimLeft(s))
  }

  lemma {:induction false} TrimLeftPadded(p: string, t: string)
    requires AllSpace(p)
    ensures TrimLeft(p + t) == TrimLeft(t)
    decreases |p|
  {
    if |p| > 0 {
      assert (p + t)[1..] == p[1..] + t;
      TrimLeftPadded(p[1..], t);
    } else {
      assert p + t == t;
    }
  }

  lemma {:induction false} TrimRightPadded(t: string, q: string)
    requires AllSpace(q)
    ensures TrimRight(t + q) == TrimRight(t)
    decreases |q|
  {
    if |q| > 0 {
      assert (t + q)[..|t + q| - 1] == t + q[..|q| - 1];
      TrimRightPadded(t, q[..|q| - 1]);
    } else {
      assert t + q == t;
    }
  }

  /** TrimSpace removes exactly the white space around a text that has none at its ends. */
  lemma TrimSpacePadded(p: string, m: string, q: string)
    requires AllSpace(p) && AllSpace(q) && NoSpaceAtEnds(m)
    ensures TrimSpace(p + m + q) == m
  {
    assert TrimLeft(p + m + q) == TrimLeft(m + q) by {
      assert p + m + q == p + (m + q);
      TrimLeftPadded(p, m + q);
    }
    if |m| == 0 {
      assert m + q == q + [];
      assert TrimLeft(q + []) == [] by {
        TrimLeftPadded(q, []);
      }
    } else {
      assert TrimLeft(m + q) == m + q by {
        assert (m + q)[0] == m[0];
      }
      assert TrimRight(m + q) == m by {
        TrimRightPadded(m, q);
        assert m[|m| - 1] == m[|m| - 1];
      }
    }
  }

  /** TrimSpace is idempotent: a trimmed text is its own trimming. */
  lemma TrimSpaceTrimmed(m: string)
    requires NoSpaceAtEnds(m)
    ensures TrimSpace(m) == m
  {
    TrimSpacePadded([], m, []);
    assert [] + m + [] == m;
  }

  /** One leading blank before a trimmed text is removed by TrimSpace. */
  lemma TrimSpaceAfterBlank(m: string)
    requires NoSpaceAtEnds(m)
    ensures TrimSpace(" " + m) == m
  {
    TrimSpacePadded(" ", m, "");
    assert " " + m + "" == " " + m;
  }

  /** TrimLeft removes only white space: the text is the removed blanks followed by the result. */
  lemma {:induction false} TrimLeftSplits(s: string) returns (p: string)
    ensures AllSpace(p) && s == p + TrimLeft(s)
    decreases |s|
  {
    if |s| > 0 && IsSpace(s[0]) {
      var p' := TrimLeftSplits(s[1..]);
      p := [s[0]] + p';
      assert s == [s[0]] + s[1..];
    } else {
      p := [];
    }
  }

  /** TrimRight removes only white space: the text is the result followed by the removed blanks. */
  lemma {:induction false} TrimRightSplits(s: string) returns (q: string)
    ensures AllSpace(q) && s == TrimRight(s) + q
    decreases |s|
  {
    if |s| > 0 && IsSpace(s[|s| - 1]) {
      var q' := TrimRightSplits(s[..|s| - 1]);
      q := q' + [s[|s| - 1]];
      assert s == s[..|s| - 1] + [s[|s| - 1]];
    } else {
      q := [];
    }
  }

  /** TrimSpace removes only white space, from both ends. */
  lemma TrimSpaceSplits(s: string) returns (p: string, q: string)
    ensures AllSpace(p) && AllSpace(q) && s == p + TrimSpace(s) + q
  {
    p := TrimLeftSplits(s);
    q := TrimRightSplits(TrimLeft(s));
  }

  /** White space added around a text does not change its trimming. */
  lemma TrimSpaceIgnoresPadding(p: string, s: string, q: string)
    requires AllSpace(p) && AllSpace(q)
    ensures TrimSpace(p + s + q) == TrimSpace(s)
  {
    var p1, q1 := TrimSpaceSplits(s);
    var m := TrimSpace(s);
    assert p + s + q == (p + p1) + m + (q1 + q);
    assert AllSpace(p + p1) && AllSpace(q1 + q) by {
      assert forall i :: 0 <= i < |p + p1| ==> (p + p1)[i] == if i < |p| then p[i] else p1[i - |p|];
      assert forall i :: 0 <= i < |q1 + q| ==> (q1 + q)[i] == if i < |q1| then q1[i] else q[i - |q1|];
    }
    TrimSpacePadded(p + p1, m, q1 + q);
  }

  /** ASCII upper-casing of one character. */
  function UpperChar(c: char): char
  {
    if 'a' <= c <= 'z' then (c as int - 32) as char else c
  }

  /** ASCII lower-casing of one character. */
  function LowerChar(c: char): char
  {
    if 'A' <= c <= 'Z' then (c as int + 32) as char else c
  }

  /** `strings.ToUpper`, restricted to ASCII letters. */
  function ToUpper(s: string): string
  {
    seq(|s|, i requires 0 <= i < |s| => UpperChar(s[i]))
  }

  /** `strings.ToLower`, restricted to ASCII letters. */
  function ToLower(s: string): string
  {
    seq(|s|, i requires 0 <= i < |s| => LowerChar(s[i]))
  }

  /** Lower-casing an upper-cased text gives its lower-cased form, and the other way round. */
  lemma CaseMappingsAbsorb(s: string)
    ensures ToLower(ToLower(s)) == ToLower(s)
    ensures ToUpper(ToLower(s)) == ToUpper(s)
  {
    assert forall i :: 0 <= i < |s| ==> ToLower(ToLower(s))[i] == ToLower(s)[i];
    assert forall i :: 0 <= i < |s| ==> ToUpper(ToLower(s))[i] == ToUpper(s)[i];
  }

  /** Lower-casing never creates or removes white space. */
  lemma LowerKeepsSpace(c: char)
    ensures IsSpace(LowerChar(c)) <==> IsSpace(c)
  {
  }

  lemma {:induction false} TrimLeftLower(s: string)
    ensures TrimLeft(ToLower(s)) == ToLower(TrimLeft(s))
    decreases |s|
  {
    if |s| > 0 {
      LowerKeepsSpace(s[0]);
      assert ToLower(s)[1..] == ToLower(s[1..]);
      TrimLeftLower(s[1..]);
    }
  }

  lemma {:induction false} TrimRightLower(s: string)
    ensures TrimRight(ToLower(s)) == ToLower(TrimRight(s))
    decreases |s|
  {
    if |s| > 0 {
      LowerKeepsSpace(s[|s| - 1]);
      assert ToLower(s)[..|s| - 1] == ToLower(s[..|s| - 1]);
      TrimRightLower(s[..|s| - 1]);
    }
  }

  /** Trimming and lower-casing commute. */
  lemma TrimSpaceLower(s: string)
    ensures TrimSpace(ToLower(s)) == ToLower(TrimSpace(s))
  {
    TrimLeftLower(s);
    TrimRightLower(TrimLeft(s));
  }

  /** Upper-casing never creates or removes white space. */
  lemma UpperKeepsSpace(c: char)
    ensures IsSpace(UpperChar(c)) <==> IsSpace(c)
  {
  }

  lemma {:induction false} TrimLeftUpper(s: string)
    ensures TrimLeft(ToUpper(s)) == ToUpper(TrimLeft(s))
    decreases |s|
  {
    if |s| > 0 {
      UpperKeepsSpace(s[0]);
      assert ToUpper(s)[1..] == ToUpper(s[1..]);
      TrimLeftUpper(s[1..]);
    }
  }

  lemma {:induction false} TrimRightUpper(s: string)
    ensures TrimRight(ToUpper(s)) == ToUpper(TrimRight(s))
    decreases |s|
  {
    if |s| > 0 {
      UpperKeepsSpace(s[|s| - 1]);
      assert ToUpper(s)[..|s| - 1] == ToUpper(s[..|s| - 1]);
      TrimRightUpper(s[..|s| - 1]);
    }
  }

  /** Trimming and upper-casing commute. */
  lemma TrimSpaceUpper(s: string)
    ensures TrimSpace(ToUpper(s)) == ToUpper(TrimSpace(s))
  {
    TrimLeftUpper(s);
    TrimRightUpper(TrimLeft(s));
  }

  /** `s` is one of `words` with nothing but white space around it. */
  ghost predicate Padded(s: string, words: set<string>)
  {
    exists p, w, q :: w in words && AllSpace(p) && AllSpace(q) && s == p + w + q
  }

  /** For words with no white space at their ends, the trimmed text is one of them exactly when
      the text is one of them padded with white space. */
  lemma TrimmedIn(s: string, words: set<string>)
    requires forall w :: w in words ==> NoSpaceAtEnds(w)
    ensures TrimSpace(s) in words <==> Padded(s, words)
  {
    if TrimSpace(s) in words {
      var p, q := TrimSpaceSplits(s);
      assert TrimSpace(s) in words && AllSpace(p) && AllSpace(q) && s == p + TrimSpace(s) + q;
    }
    if Padded(s, words) {
      var p, w, q :| w in words && AllSpace(p) && AllSpace(q) && s == p + w + q;
      TrimSpacePadded(p, w, q);
    }
  }

  predicate HasPrefix(s: string, p: string)
  {
    |p| <= |s| && s[..|p|] == p
  }

  /** `strings.Contains`: `sub` starts at some position of `s`. */
  predicate Contains(s: string, sub: string)
    decreases |s|
  {
    HasPrefix(s, sub) || (|s| > 0 && Contains(s[1..], sub))
  }

  /** `sub` occurs in `s` starting at position `i`. */
  predicate OccursAt(s: string, sub: string, i: int)
  {
    0 <= i <= |s| - |sub| && s[i..i + |sub|] == sub
  }

  /** Contains agrees with the positional definition of a substring occurrence. */
  lemma {:induction false} ContainsIffOccurs(s: string, sub: string)
    ensures Contains(s, sub) <==> exists i :: OccursAt(s, sub, i)
    decreases |s|
  {
    if HasPrefix(s, sub) {
      assert OccursAt(s, sub, 0);
    } else if |s| == 0 {
    } else {
      ContainsIffOccurs(s[1..], sub);
      if exists i :: OccursAt(s, sub, i) {
        var i :| OccursAt(s, sub, i);
        assert i != 0;
        assert OccursAt(s[1..], sub, i - 1);
      }
      if Contains(s[1..], sub) {
        var j :| OccursAt(s[1..], sub, j);
        assert OccursAt(s, sub, j + 1);
      }
    }
  }

  /** Number of occurrences of `c` in `s`. */
  function Count(s: string, c: char): nat
  {
    if |s| == 0 then 0 else (if s[0] == c then 1 else 0) + Count(s[1..], c)
  }

  /** Go's `strings.Split` with a one-character separator: the text between consecutive separators. */
  function Split(s: string, sep: char): (parts: seq<string>)
    ensures |parts| >= 1
    decreases |s|
  {
    if |s| == 0 then [""]
    else
      var rest := Split(s[1..], sep);
      if s[0] == sep then [""] + rest
      else [[s[0]] + rest[0]] + rest[1..]
  }

  /** Go's `strings.Join` with a one-character separator. */
  function Join(parts: seq<string>, sep: char): string
    requires |parts| >= 1
    decreases |parts|
  {
    if |parts| == 1 then parts[0] else parts[0] + [sep] + Join(parts[1..], sep)
  }

  /** No part contains the separator. */
  lemma {:induction false} SplitPartsFree(s: string, sep: char)
    ensures forall k :: 0 <= k < |Split(s, sep)| ==> sep !in Split(s, sep)[k]
    decreases |s|
  {
    if |s| > 0 {
      SplitPartsFree(s[1..], sep);
    }
  }

  /** Joining the parts of a split with the same separator restores the text. */
  lemma {:induction false} SplitJoin(s: string, sep: char)
    ensures Join(Split(s, sep), sep) == s
    decreases |s|
  {
    if |s| > 0 {
      var rest := Split(s[1..], sep);
      SplitJoin(s[1..], sep);
      if s[0] == sep {
        assert Split(s, sep)[1..] == rest;
        assert s == [sep] + s[1..];
      } else {
        var parts := Split(s, sep);
        if |rest| == 1 {
          assert s == [s[0]] + s[1..];
        } else {
          assert parts[1..] == rest[1..];
          assert Join(rest, sep) == rest[0] + [sep] + Join(rest[1..], sep);
          assert s == [s[0]] + s[1..];
        }
      }
    }
  }

  /** There is one more part than there are separators. */
  lemma {:induction false} SplitCount(s: string, sep: char)
    ensures |Split(s, sep)| == Count(s, sep) + 1
    decreases |s|
  {
    if |s| > 0 {
      SplitCount(s[1..], sep);
    }
  }

  /** Splitting at one separator splits the two sides independently. */
  lemma {:induction false} SplitConcat(x: string, sep: char, y: string)
    ensures Split(x + [sep] + y, sep) == Split(x, sep) + Split(y, sep)
    decreases |x|
  {
    var s := x + [sep] + y;
    if |x| == 0 {
      assert s[1..] == y;
    } else {
      assert s[1..] == x[1..] + [sep] + y;
      SplitConcat(x[1..], sep, y);
    }
  }

  /** A text without separators is a single part. */
  lemma {:induction false} SplitNone(a: string, sep: char)
    requires sep !in a
    ensures Split(a, sep) == [a]
    decreases |a|
  {
    if |a| > 0 {
      SplitNone(a[1..], sep);
      assert [a[0]] + a[1..] == a;
    }
  }

  function DigitChar(d: nat): (c: char)
    requires d < 10
    ensures '0' <= c <= '9'
  {
    ('0' as int + d) as char
  }

  predicate IsDigit(c: char)
  {
    '0' <= c <= '9'
  }

  function DigitValue(c: char): (d: nat)
    requires IsDigit(c)
    ensures d < 10 && DigitChar(d) == c
  {
    c as int - '0' as int
  }

  /** `fmt.Sprintf("%d", n)` for a natural number: decimal digits, no leading zero. */
  function NatToString(n: nat): (r: string)
    ensures |r| >= 1
    ensures forall i :: 0 <= i < |r| ==> IsDigit(r[i])
    ensures n >= 10 ==> |r| >= 2
    decreases n
  {
    if n < 10 then [DigitChar(n)] else NatToString(n / 10) + [DigitChar(n % 10)]
  }

  /** `fmt.Sprintf("%d", x)` for any integer. */
  function IntToString(x: int): (r: string)
    ensures |r| >= 1
  {
    if x < 0 then "-" + NatToString(-x) else NatToString(x)
  }

  /** Distinct numbers have distinct decimal forms. */
  lemma {:induction false} NatToStringInjective(a: nat, b: nat)
    requires NatToString(a) == NatToString(b)
    ensures a == b
    decreases a
  {
    var s := NatToString(a);
    if a < 10 && b < 10 {
      assert s[0] == DigitChar(a) && s[0] == DigitChar(b);
    } else if a >= 10 && b >= 10 {
      assert s[|s| - 1] == DigitChar(a % 10) && s[|s| - 1] == DigitChar(b % 10);
      assert NatToString(a / 10) == s[..|s| - 1] == NatToString(b / 10);
      NatToStringInjective(a / 10, b / 10);
    }
  }

  /** The decimal form starts with a minus sign exactly for negative numbers. */
  lemma IntToStringSign(x: int)
    ensures IntToString(x)[0] == '-' <==> x < 0
  {
    if x >= 0 {
      assert IsDigit(NatToString(x)[0]);
    }
  }

  /** Distinct integers have distinct decimal forms. */
  lemma IntToStringInjective(x: int, y: int)
    requires IntToString(x) == IntToString(y)
    ensures x == y
  {
    IntToStringSign(x);
    IntToStringSign(y);
    var s := IntToString(x);
    if x < 0 {
      assert s[1..] == NatToString(-x) == NatToString(-y);
      NatToStringInjective(-x, -y);
    } else {
      NatToStringInjective(x, y);
    }
  }
}
