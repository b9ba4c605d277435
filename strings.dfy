/** The Python string primitives the modelled functions are built from:
    `split` on one character, `join`, `strip`, `lower`, the slice `[1:-1]`,
    repetition `n * s`, `str(n)` on a natural number and indexing `xs[i]`
    with negative indices. */
module Strings {
  import opened Values

  /** `s.split(sep)`: the pieces between occurrences of `sep`; never empty,
      and `"".split(sep)` is `[""]`. */
  function Split(s: string, sep: char): (parts: seq<string>)
    ensures |parts| >= 1
    decreases |s|
  {
    if s == [] then [[]]
    else
      var rest := Split(s[1..], sep);
      if s[0] == sep then [[]] + rest
      else [[s[0]] + rest[0]] + rest[1..]
  }

  /** No piece of a split holds the separator. */
  lemma {:induction false} SplitPiecesAvoid(s: string, sep: char)
    ensures forall i :: 0 <= i < |Split(s, sep)| ==> sep !in Split(s, sep)[i]
    decreases |s|
  {
    if s != [] {
      SplitPiecesAvoid(s[1..], sep);
    }
  }

  /** `sep.join(parts)`. */
  function Join(parts: seq<string>, sep: char): string
  {
    if |parts| == 0 then []
    else if |parts| == 1 then parts[0]
    else parts[0] + [sep] + Join(parts[1..], sep)
  }

  /** Joining the pieces of a split gives back the string. */
  lemma {:induction false} JoinSplit(s: string, sep: char)
    ensures Join(Split(s, sep), sep) == s
    decreases |s|
  {
    if s != [] {
      var rest := Split(s[1..], sep);
      JoinSplit(s[1..], sep);
      if s[0] == sep {
        assert ([[]] + rest)[1..] == rest;
      } else if |rest| > 1 {
        assert ([[s[0]] + rest[0]] + rest[1..])[1..] == rest[1..];
      }
    }
  }

  /** A string without the separator is a single piece. */
  lemma {:induction false} SplitNoSep(s: string, sep: char)
    requires sep !in s
    ensures Split(s, sep) == [s]
    decreases |s|
  {
    if s != [] {
      SplitNoSep(s[1..], sep);
      assert [s[0]] + s[1..] == s;
    }
  }

  /** Splitting around one separator splits the two sides independently. */
  lemma {:induction false} SplitAround(x: string, y: string, sep: char)
    ensures Split(x + [sep] + y, sep) == Split(x, sep) + Split(y, sep)
    decreases |x|
  {
    var s := x + [sep] + y;
    if x == [] {
      assert s[1..] == y;
    } else {
      assert s[1..] == x[1..] + [sep] + y;
      SplitAround(x[1..], y, sep);
    }
  }

  /** Splitting a join of separator-free pieces gives back the pieces. */
  lemma {:induction false} SplitJoin(parts: seq<string>, sep: char)
    requires |parts| >= 1
    requires forall i :: 0 <= i < |parts| ==> sep !in parts[i]
    ensures Split(Join(parts, sep), sep) == parts
    decreases |parts|
  {
    SplitNoSep(parts[0], sep);
    if |parts| > 1 {
      SplitJoin(parts[1..], sep);
      SplitAround(parts[0], Join(parts[1..], sep), sep);
    }
  }

  /** A joined string contains a character other than the separator only
      if one of the pieces does. */
  lemma {:induction false} JoinAvoids(parts: seq<string>, sep: char, c: char)
    requires c != sep
    requires forall i :: 0 <= i < |parts| ==> c !in parts[i]
    ensures c !in Join(parts, sep)
    decreases |parts|
  {
    if |parts| > 1 {
      JoinAvoids(parts[1..], sep, c);
    }
  }

  /** The first piece is the text before the first separator. */
  lemma {:induction false} SplitFirst(s: string, sep: char)
    ensures Split(s, sep)[0] <= s
    ensures |Split(s, sep)[0]| == |s| || s[|Split(s, sep)[0]|] == sep
    decreases |s|
  {
    if s != [] {
      SplitFirst(s[1..], sep);
    }
  }

  /** The last piece is the text after the last separator. */
  lemma {:induction false} SplitLast(s: string, sep: char)
    ensures var parts := Split(s, sep); var p := parts[|parts| - 1];
      |p| <= |s| && p == s[|s| - |p|..] && (|p| == |s| || s[|s| - |p| - 1] == sep)
    decreases |s|
  {
    if s != [] {
      var rest := Split(s[1..], sep);
      SplitLast(s[1..], sep);
      var parts := Split(s, sep);
      if s[0] == sep {
        assert parts[|parts| - 1] == rest[|rest| - 1];
      } else if |rest| == 1 {
        JoinSplit(s[1..], sep);
        assert parts == [[s[0]] + s[1..]];
        assert [s[0]] + s[1..] == s;
      } else {
        SplitLastOfMany(s[1..], sep);
        assert parts[|parts| - 1] == rest[|rest| - 1];
      }
    }
  }

  /** A string that splits into several pieces is longer than its last. */
  lemma SplitLastOfMany(s: string, sep: char)
    requires |Split(s, sep)| > 1
    ensures |Split(s, sep)[|Split(s, sep)| - 1]| < |s|
  {
    var parts := Split(s, sep);
    JoinSplit(s, sep);
    SplitFirst(s, sep);
    SplitPiecesAvoid(s, sep);
    assert s[|parts[0]|] == sep;
  }

  /** The text of `s` before its first `sep`, which Python code reads as
      `s.split(sep)[0]`. */
  function BeforeFirst(s: string, sep: char): string
  {
    if s == [] || s[0] == sep then [] else [s[0]] + BeforeFirst(s[1..], sep)
  }

  /** The text of `s` after its last `sep`, read as `s.split(sep)[-1]`. */
  function AfterLast(s: string, sep: char): string
  {
    if s == [] || s[|s| - 1] == sep then [] else AfterLast(s[..|s| - 1], sep) + [s[|s| - 1]]
  }

  /** `p` is the text of `s` before its first `sep` (all of `s` if none). */
  predicate IsTextBefore(p: string, s: string, sep: char)
  {
    p <= s && sep !in p && (|p| == |s| || s[|p|] == sep)
  }

  /** `q` is the text of `s` after its last `sep` (all of `s` if none). */
  predicate IsTextAfter(q: string, s: string, sep: char)
  {
    |q| <= |s| && q == s[|s| - |q|..] && sep !in q && (|q| == |s| || s[|s| - |q| - 1] == sep)
  }

  lemma TextBeforeUnique(p1: string, p2: string, s: string, sep: char)
    requires IsTextBefore(p1, s, sep) && IsTextBefore(p2, s, sep)
    ensures p1 == p2
  {
  }

  lemma TextAfterUnique(q1: string, q2: string, s: string, sep: char)
    requires IsTextAfter(q1, s, sep) && IsTextAfter(q2, s, sep)
    ensures q1 == q2
  {
  }

  lemma {:induction false} BeforeFirstIsTextBefore(s: string, sep: char)
    ensures IsTextBefore(BeforeFirst(s, sep), s, sep)
    decreases |s|
  {
    if s != [] && s[0] != sep {
      BeforeFirstIsTextBefore(s[1..], sep);
    }
  }

  lemma {:induction false} AfterLastIsTextAfter(s: string, sep: char)
    ensures IsTextAfter(AfterLast(s, sep), s, sep)
    decreases |s|
  {
    if s != [] && s[|s| - 1] != sep {
      var init := s[..|s| - 1];
      AfterLastIsTextAfter(init, sep);
      var q := AfterLast(init, sep);
      assert init[|init| - |q|..] + [s[|s| - 1]] == s[|s| - |q| - 1..];
    }
  }

  /** The text before the first separator is the one such text, and it is
      the first piece of `s.split(sep)`. */
  lemma BeforeFirstMeaning(s: string, sep: char)
    ensures IsTextBefore(BeforeFirst(s, sep), s, sep)
    ensures forall p :: IsTextBefore(p, s, sep) ==> p == BeforeFirst(s, sep)
    ensures BeforeFirst(s, sep) == Split(s, sep)[0]
  {
    BeforeFirstIsTextBefore(s, sep);
    forall p | IsTextBefore(p, s, sep)
      ensures p == BeforeFirst(s, sep)
    {
      TextBeforeUnique(p, BeforeFirst(s, sep), s, sep);
    }
    SplitFirst(s, sep);
    SplitPiecesAvoid(s, sep);
    TextBeforeUnique(Split(s, sep)[0], BeforeFirst(s, sep), s, sep);
  }

  /** The text after the last separator is the one such text, and it is
      the last piece of `s.split(sep)`. */
  lemma AfterLastMeaning(s: string, sep: char)
    ensures IsTextAfter(AfterLast(s, sep), s, sep)
    ensures forall q :: IsTextAfter(q, s, sep) ==> q == AfterLast(s, sep)
    ensures var parts := Split(s, sep); AfterLast(s, sep) == parts[|parts| - 1]
  {
    AfterLastIsTextAfter(s, sep);
    forall q | IsTextAfter(q, s, sep)
      ensures q == AfterLast(s, sep)
    {
      TextAfterUnique(q, AfterLast(s, sep), s, sep);
    }
    SplitLast(s, sep);
    SplitPiecesAvoid(s, sep);
    var parts := Split(s, sep);
    TextAfterUnique(parts[|parts| - 1], AfterLast(s, sep), s, sep);
  }

  /** The characters `str.isspace` accepts. */
  predicate IsSpace(c: char)
  {
    || '\t' <= c <= '\r'
    || '\U{1c}' <= c <= '\U{20}'
    || c == '\U{85}' || c == '\U{a0}' || c == '\U{1680}'
    || '\U{2000}' <= c <= '\U{200a}'
    || c == '\U{2028}' || c == '\U{2029}' || c == '\U{202f}' || c == '\U{205f}' || c == '\U{3000}'
  }

  predicate AllSpace(t: string)
  {
    forall i :: 0 <= i < |t| ==> IsSpace(t[i])
  }

  /** `s.lstrip()`. */
  function TrimStart(s: string): string
    decreases |s|
  {
    if s != [] && IsSpace(s[0]) then TrimStart(s[1..]) else s
  }

  /** `s.rstrip()`. */
  function TrimEnd(s: string): string
    decreases |s|
  {
    if s != [] && IsSpace(s[|s| - 1]) then TrimEnd(s[..|s| - 1]) else s
  }

  /** `s.strip()`. */
  function Strip(s: string): string
  {
    TrimEnd(TrimStart(s))
  }

  /** `lstrip` removes exactly the leading whitespace. */
  lemma {:induction false} TrimStartMeaning(s: string)
    ensures |TrimStart(s)| <= |s| && TrimStart(s) == s[|s| - |TrimStart(s)|..]
    ensures AllSpace(s[..|s| - |TrimStart(s)|])
    ensures TrimStart(s) == [] || !IsSpace(TrimStart(s)[0])
    decreases |s|
  {
    if s != [] && IsSpace(s[0]) {
      TrimStartMeaning(s[1..]);
      var r := TrimStart(s);
      assert s[..|s| - |r|] == [s[0]] + s[1..][..|s| - 1 - |r|];
    }
  }

  /** `rstrip` removes exactly the trailing whitespace. */
  lemma {:induction false} TrimEndMeaning(s: string)
    ensures |TrimEnd(s)| <= |s| && TrimEnd(s) == s[..|TrimEnd(s)|]
    ensures AllSpace(s[|TrimEnd(s)|..])
    ensures TrimEnd(s) == [] || !IsSpace(TrimEnd(s)[|TrimEnd(s)| - 1])
    decreases |s|
  {
    if s != [] && IsSpace(s[|s| - 1]) {
      TrimEndMeaning(s[..|s| - 1]);
      var r := TrimEnd(s);
      assert s[|r|..] == s[..|s| - 1][|r|..] + [s[|s| - 1]];
    }
  }

  /** `strip` keeps the slice of `s` between its leading and its trailing
      whitespace; `i` and `j` are where that slice starts and ends. */
  lemma StripMeaning(s: string) returns (i: nat, j: nat)
    ensures i <= j <= |s| && Strip(s) == s[i..j]
    ensures AllSpace(s[..i]) && AllSpace(s[j..])
    ensures Strip(s) == [] || (!IsSpace(Strip(s)[0]) && !IsSpace(Strip(s)[|Strip(s)| - 1]))
  {
    var t := TrimStart(s);
    TrimStartMeaning(s);
    TrimEndMeaning(t);
    i := |s| - |t|;
    j := i + |TrimEnd(t)|;
    assert s[j..] == t[|TrimEnd(t)|..];
  }

  /** A text without whitespace at either end is its own `strip`. */
  lemma {:induction false} StripUnchanged(s: string)
    requires s == [] || (!IsSpace(s[0]) && !IsSpace(s[|s| - 1]))
    ensures Strip(s) == s
  {
  }

  /** `s[1:-1]`: the text without its first and last character. */
  function DropEnds(s: string): (r: string)
    ensures |s| <= 2 ==> r == []
    ensures |s| > 2 ==> |r| == |s| - 2 && forall i :: 0 <= i < |r| ==> r[i] == s[i + 1]
  {
    if |s| <= 2 then [] else s[1..|s| - 1]
  }

  /** Dropping the ends of a wrapped text gives the text back. */
  lemma DropEndsWrapped(open: char, t: string, close: char)
    ensures DropEnds([open] + t + [close]) == t
  {
  }

  function LowerChar(c: char): char
  {
    if 'A' <= c <= 'Z' then (c as int - 'A' as int + 'a' as int) as char else c
  }

  /** `s.lower()` on the ASCII letters. */
  function Lower(s: string): (r: string)
    ensures |r| == |s|
    ensures forall i :: 0 <= i < |s| ==>
      if 'A' <= s[i] <= 'Z' then r[i] == (s[i] as int + 32) as char else r[i] == s[i]
    ensures forall i :: 0 <= i < |r| ==> !('A' <= r[i] <= 'Z')
  {
    seq(|s|, i requires 0 <= i < |s| => LowerChar(s[i]))
  }

  /** `n * t`: `t` repeated `n` times, empty when `n <= 0`. */
  function Repeat(t: string, n: int): (r: string)
    ensures n <= 0 ==> r == []
    ensures n >= 0 ==> |r| == n * |t|
    ensures |t| == 1 ==> forall i :: 0 <= i < |r| ==> r[i] == t[0]
    decreases n
  {
    if n <= 0 then [] else t + Repeat(t, n - 1)
  }

  /** `n * t` is `n` copies of `t`, one after the other: block `k` is `t`. */
  lemma RepeatBlocks(t: string, n: int)
    ensures forall k :: 0 <= k < n ==> Repeat(t, n)[k * |t| .. k * |t| + |t|] == t
  {
    forall k | 0 <= k < n {
      RepeatBlock(t, n, k);
    }
  }

  /** Block `k` of `n * t`, for `k` below `n`. */
  lemma {:induction false} RepeatBlock(t: string, n: int, k: nat)
    requires k < n
    ensures k * |t| + |t| <= |Repeat(t, n)| && Repeat(t, n)[k * |t| .. k * |t| + |t|] == t
    decreases k
  {
    var rest := Repeat(t, n - 1);
    assert Repeat(t, n) == t + rest;
    if k > 0 {
      RepeatBlock(t, n - 1, k - 1);
      var lo := (k - 1) * |t|;
      assert k * |t| == lo + |t|;
      assert (t + rest)[lo + |t| .. lo + |t| + |t|] == rest[lo .. lo + |t|];
    }
  }

  function Digit(d: nat): char
    requires d < 10
  {
    ('0' as int + d) as char
  }

  predicate IsDigits(s: string)
  {
    forall i :: 0 <= i < |s| ==> '0' <= s[i] <= '9'
  }

  /** `str(n)` for a natural number: its decimal digits, without leading
      zeros. */
  function Decimal(n: nat): (s: string)
    ensures |s| >= 1 && IsDigits(s)
    ensures n > 0 ==> s[0] != '0'
  {
    if n < 10 then [Digit(n)] else Decimal(n / 10) + [Digit(n % 10)]
  }

  /** The number a string of decimal digits denotes. */
  function DecimalValue(s: string): nat
    requires IsDigits(s)
  {
    if s == [] then 0 else DecimalValue(s[..|s| - 1]) * 10 + (s[|s| - 1] as int - '0' as int)
  }

  /** `str(n)` is read back as `n`, so distinct numbers print differently. */
  lemma {:induction false} DecimalRoundTrip(n: nat)
    ensures DecimalValue(Decimal(n)) == n
  {
    if n >= 10 {
      var s := Decimal(n);
      assert s[..|s| - 1] == Decimal(n / 10);
      DecimalRoundTrip(n / 10);
    }
  }

  lemma DecimalInjective(m: nat, n: nat)
    requires Decimal(m) == Decimal(n)
    ensures m == n
  {
    DecimalRoundTrip(m);
    DecimalRoundTrip(n);
  }

  /** `xs[i]`: a negative index counts from the end; out of range is an
      IndexError. */
  function At<T>(xs: seq<T>, i: int): (r: Result<T>)
    ensures r.Ok? <==> -|xs| <= i < |xs|
    ensures r.Ok? ==> r.value == xs[if i < 0 then |xs| + i else i]
    ensures r.Err? ==> r.error == IndexError
  {
    if 0 <= i < |xs| then Ok(xs[i])
    else if -|xs| <= i < 0 then Ok(xs[|xs| + i])
    else Err(IndexError)
  }
}
