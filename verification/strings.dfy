/**
 * The few operations on Python strings that the bot relies on:
 * `str.find`, `str.rfind`, `str.split(sep)`, `sep.join(parts)` and `str(int)`.
 */
module Strings {
  import opened Wrappers

  /** Every character of `s` satisfies `p`. */
  predicate AllChars(s: string, p: char -> bool)
  {
    forall i | 0 <= i < |s| :: p(s[i])
  }

  /** The first index of `c` in `s` (Python's `s.find(c)`, with -1 as None). */
  function IndexOf(s: string, c: char): (r: Option<nat>)
    ensures r.Some? ==> r.value < |s| && s[r.value] == c && c !in s[..r.value]
    ensures r.None? <==> c !in s
  {
    if |s| == 0 then None
    else if s[0] == c then Some(0)
    else
      match IndexOf(s[1..], c)
      case None => None
      case Some(i) =>
        assert s[..i + 1] == [s[0]] + s[1..][..i];
        Some(i + 1)
  }

  /** The last index of `c` in `s` (Python's `s.rfind(c)`, with -1 as None). */
  function LastIndexOf(s: string, c: char): (r: Option<nat>)
    ensures r.Some? ==> r.value < |s| && s[r.value] == c && c !in s[r.value + 1..]
    ensures r.None? <==> c !in s
  {
    if |s| == 0 then None
    else if s[|s| - 1] == c then Some(|s| - 1)
    else
      var r := LastIndexOf(s[..|s| - 1], c);
      assert r.Some? ==> s[r.value + 1..] == s[..|s| - 1][r.value + 1..] + [s[|s| - 1]];
      assert s == s[..|s| - 1] + [s[|s| - 1]];
      r
  }

  /** An occurrence with none before it is the one `IndexOf` finds. */
  lemma {:induction false} IndexOfAt(s: string, c: char, k: nat)
    requires k < |s| && s[k] == c && c !in s[..k]
    ensures IndexOf(s, c) == Some(k)
    decreases k
  {
    if k > 0 {
      assert s[..k][0] == s[0];
      assert s[1..][..k - 1] == s[..k][1..];
      IndexOfAt(s[1..], c, k - 1);
    }
  }

  /** An occurrence with none after it is the one `LastIndexOf` finds. */
  lemma {:induction false} LastIndexOfAt(s: string, c: char, k: nat)
    requires k < |s| && s[k] == c && c !in s[k + 1..]
    ensures LastIndexOf(s, c) == Some(k)
    decreases |s|
  {
    if k < |s| - 1 {
      assert s[k + 1..][|s| - k - 2] == s[|s| - 1];
      assert s[..|s| - 1][k + 1..] == s[k + 1..][..|s| - k - 2];
      LastIndexOfAt(s[..|s| - 1], c, k);
    }
  }

  /** The first index whose character does not satisfy `p`, or `|s|` when there is none. */
  function FirstNot(s: string, p: char -> bool): (r: nat)
    ensures r <= |s| && AllChars(s[..r], p)
    ensures r < |s| ==> !p(s[r])
  {
    if |s| == 0 then 0
    else if !p(s[0]) then 0
    else
      var r := FirstNot(s[1..], p);
      assert s[..r + 1] == [s[0]] + s[1..][..r];
      r + 1
  }

  /** An index with only `p` before it and a failure of `p` at it is the one `FirstNot` finds. */
  lemma {:induction false} FirstNotAt(s: string, p: char -> bool, k: nat)
    requires k <= |s| && AllChars(s[..k], p) && (k < |s| ==> !p(s[k]))
    ensures FirstNot(s, p) == k
    decreases k
  {
    if k > 0 {
      assert s[..k][0] == s[0];
      assert s[1..][..k - 1] == s[..k][1..];
      FirstNotAt(s[1..], p, k - 1);
    }
  }

  /** Python's `sep.join(parts)`, for a non-empty list of parts. */
  function Join(parts: seq<string>, sep: char): string
    requires |parts| >= 1
    decreases |parts|
  {
    if |parts| == 1 then parts[0] else parts[0] + [sep] + Join(parts[1..], sep)
  }

  /**
   * Python's `s.split(sep)` with an explicit one-character separator: every occurrence
   * separates two parts, so there is always one part more than separators, and parts
   * may be empty.
   */
  function Split(s: string, sep: char): (parts: seq<string>)
    ensures |parts| >= 1
    ensures forall k | 0 <= k < |parts| :: sep !in parts[k]
    ensures Join(parts, sep) == s
    decreases |s|
  {
    match IndexOf(s, sep)
    case None => [s]
    case Some(i) =>
      var rest := Split(s[i + 1..], sep);
      assert ([s[..i]] + rest)[1..] == rest;
      assert s == s[..i] + [sep] + s[i + 1..];
      [s[..i]] + rest
  }

  /** The first part of a join is where the joined string starts. */
  lemma JoinStartsWithFirst(parts: seq<string>, sep: char)
    requires |parts| >= 1
    ensures |parts[0]| <= |Join(parts, sep)| && Join(parts, sep)[..|parts[0]|] == parts[0]
  {
  }

  /** A string splits into one part exactly when it holds no separator. */
  lemma SplitSingle(s: string, sep: char)
    ensures sep !in s ==> Split(s, sep) == [s]
    ensures sep in s ==> |Split(s, sep)| >= 2
  {
  }

  /** Splitting undoes joining, as long as no part contains the separator. */
  lemma {:induction false} SplitOfJoin(parts: seq<string>, sep: char)
    requires |parts| >= 1
    requires forall k | 0 <= k < |parts| :: sep !in parts[k]
    ensures Split(Join(parts, sep), sep) == parts
    decreases |parts|
  {
    if |parts| > 1 {
      var rest := parts[1..];
      SplitOfJoin(rest, sep);
      SplitCons(parts[0], sep, Join(rest, sep));
      assert parts == [parts[0]] + rest;
    }
  }

  /** A first part without the separator, the separator and the rest split off that first part. */
  lemma SplitCons(a: string, sep: char, b: string)
    requires sep !in a
    ensures Split(a + [sep] + b, sep) == [a] + Split(b, sep)
  {
    var s := a + [sep] + b;
    assert s[..|a|] == a;
    IndexOfAt(s, sep, |a|);
    assert s[|a| + 1..] == b;
  }

  /** Appending a separator and a part without separators appends exactly that part. */
  lemma {:induction false} SplitAppend(a: string, sep: char, b: string)
    requires sep !in b
    ensures Split(a + [sep] + b, sep) == Split(a, sep) + [b]
    decreases |a|
  {
    match IndexOf(a, sep)
    case None =>
      SplitCons(a, sep, b);
      SplitSingle(b, sep);
    case Some(i) =>
      IndexOfExtend(a, sep, i, b);
      SplitAppend(a[i + 1..], sep, b);
      var x, y := a[..i], Split(a[i + 1..], sep);
      assert [x] + (y + [b]) == ([x] + y) + [b];
  }

  /** Text appended after the first occurrence of `c` does not move it. */
  lemma IndexOfExtend(a: string, c: char, i: nat, b: string)
    requires IndexOf(a, c) == Some(i)
    ensures var s := a + [c] + b;
      IndexOf(s, c) == Some(i) && s[..i] == a[..i] && s[i + 1..] == a[i + 1..] + [c] + b
  {
    var s := a + [c] + b;
    assert s[..i] == a[..i];
    IndexOfAt(s, c, i);
    assert s[i + 1..] == a[i + 1..] + [c] + b;
  }

  predicate IsDigit(c: char)
  {
    '0' <= c <= '9'
  }

  function DigitChar(d: nat): (c: char)
    requires d < 10
    ensures IsDigit(c) && c as int - '0' as int == d
  {
    ('0' as int + d) as char
  }

  /** Decimal rendering of a natural number, without leading zeros. */
  function NatToString(n: nat): (s: string)
    ensures |s| >= 1 && AllChars(s, IsDigit)
    ensures n >= 10 <==> |s| >= 2
  {
    if n < 10 then [DigitChar(n)] else NatToString(n / 10) + [DigitChar(n % 10)]
  }

  /** Python's `str(i)` for an int, which is also what an f-string interpolates. */
  function IntToString(i: int): (s: string)
    ensures |s| >= 1
    ensures s[0] == '-' <==> i < 0
    ensures forall k | 1 <= k < |s| :: IsDigit(s[k])
  {
    if i < 0 then "-" + NatToString(-i) else NatToString(i)
  }

  lemma {:induction false} NatToStringInjective(a: nat, b: nat)
    requires NatToString(a) == NatToString(b)
    ensures a == b
    decreases a
  {
    var s := NatToString(a);
    if a >= 10 {
      assert s[|s| - 1] == DigitChar(a % 10) == DigitChar(b % 10);
      assert s[..|s| - 1] == NatToString(a / 10) == NatToString(b / 10);
      NatToStringInjective(a / 10, b / 10);
    } else {
      assert s[0] == DigitChar(a) == DigitChar(b);
    }
  }

  /** Distinct integers render as distinct strings. */
  lemma IntToStringInjective(a: int, b: int)
    requires IntToString(a) == IntToString(b)
    ensures a == b
  {
    if a < 0 {
      assert IntToString(a)[1..] == NatToString(-a) == NatToString(-b);
      NatToStringInjective(-a, -b);
    } else {
      NatToStringInjective(a, b);
    }
  }

  /** In `f"{a}-{s}"`, the first '-' after position 0 is the one the f-string put there. */
  lemma DashAfterInt(a: int, s: string)
    ensures var u := IntToString(a); IndexOf((u + "-" + s)[1..], '-') == Some(|u| - 1)
  {
    var u := IntToString(a);
    var w := (u + "-" + s)[1..];
    assert w[|u| - 1] == '-';
    assert w[..|u| - 1] == u[1..];
    assert '-' !in u[1..] by {
      forall k | 0 <= k < |u| - 1 ensures u[1..][k] != '-' {
        assert IsDigit(u[k + 1]);
      }
    }
  }

  /** `f"{a}-{s}"` determines both `a` and `s`. */
  lemma IntDashPrefixInjective(a: int, s: string, b: int, t: string)
    requires IntToString(a) + "-" + s == IntToString(b) + "-" + t
    ensures a == b && s == t
  {
    var u, v := IntToString(a), IntToString(b);
    var w := u + "-" + s;
    DashAfterInt(a, s);
    DashAfterInt(b, t);
    assert |u| == |v|;
    assert u == w[..|u|] == v;
    assert s == w[|u| + 1..] == t;
    IntToStringInjective(a, b);
  }
}
