/** The parts of `java.lang.String`, Spring's `StringUtils` and commons-lang's
    `StringUtils` that the core relies on, written out over `seq<char>`. */
module JavaStrings {

  /** `Character.isWhitespace`: the ASCII controls TAB..CR and FS..US, and the
      Unicode space separators other than the no-break spaces. */
  predicate IsWhitespace(c: char)
  {
    var n := c as int;
    n == 0x20 || (0x09 <= n <= 0x0D) || (0x1C <= n <= 0x1F) || n == 0x1680 ||
    (0x2000 <= n <= 0x2006) || (0x2008 <= n <= 0x200A) || n == 0x2028 || n == 0x2029 ||
    n == 0x205F || n == 0x3000
  }

  /** `StringUtils.isBlank` on a non-null string: empty or only whitespace. */
  predicate IsBlank(s: string)
  {
    forall i :: 0 <= i < |s| ==> IsWhitespace(s[i])
  }

  /** `StringUtils.isEmpty` on a non-null string. */
  predicate IsEmpty(s: string)
  {
    |s| == 0
  }

  /** Spring's `arrayToDelimitedString`: the parts in order with `delim` between
      neighbours; no parts give the empty string. */
  function Join(parts: seq<string>, delim: string): (r: string)
    ensures |parts| == 1 ==> r == parts[0]
    ensures |parts| == 0 ==> r == ""
  {
    if |parts| == 0 then ""
    else if |parts| == 1 then parts[0]
    else parts[0] + delim + Join(parts[1..], delim)
  }

  /** Every maximal run of characters other than `c`, including empty runs at
      either end; a string without `c` is one run. */
  function SplitAll(s: string, c: char): (parts: seq<string>)
    ensures |parts| >= 1
    ensures forall p :: p in parts ==> c !in p
  {
    if |s| == 0 then [""]
    else
      var rest := SplitAll(s[1..], c);
      if s[0] == c then [""] + rest else [[s[0]] + rest[0]] + rest[1..]
  }

  /** Drops the empty strings at the end of `parts`. */
  function DropTrailingEmpty(parts: seq<string>): (r: seq<string>)
    ensures r <= parts
    ensures |r| > 0 ==> r[|r| - 1] != ""
    ensures forall i :: |r| <= i < |parts| ==> parts[i] == ""
  {
    if |parts| == 0 then []
    else if parts[|parts| - 1] == "" then DropTrailingEmpty(parts[..|parts| - 1])
    else parts
  }

  /** `s.split(c)` for a character that is not a regular-expression
      metacharacter: a string without `c` comes back whole (even the empty
      string), otherwise the runs between occurrences of `c` without the
      trailing empty ones. */
  function Split(s: string, c: char): seq<string>
  {
    if c !in s then [s] else DropTrailingEmpty(SplitAll(s, c))
  }

  /** Splitting at `c` and joining with `c` gives the string back. */
  lemma {:induction false} JoinSplitAll(s: string, c: char)
    ensures Join(SplitAll(s, c), [c]) == s
  {
    if |s| > 0 {
      var rest := SplitAll(s[1..], c);
      JoinSplitAll(s[1..], c);
      if s[0] == c {
        assert SplitAll(s, c) == [""] + rest;
        assert s == [s[0]] + s[1..];
      } else {
        var parts := [[s[0]] + rest[0]] + rest[1..];
        assert SplitAll(s, c) == parts;
        if |rest| == 1 {
          assert s == [s[0]] + s[1..];
        } else {
          assert rest == [rest[0]] + rest[1..];
          assert Join(rest, [c]) == rest[0] + [c] + Join(rest[1..], [c]);
          assert parts[1..] == rest[1..];
          assert s == [s[0]] + s[1..];
        }
      }
    }
  }

  /** Joining runs that do not contain `c` with `c` and splitting again gives
      the runs back: the join is injective on such parts. */
  lemma {:induction false} SplitAllJoin(parts: seq<string>, c: char)
    requires |parts| >= 1
    requires forall p :: p in parts ==> c !in p
    ensures SplitAll(Join(parts, [c]), c) == parts
  {
    if |parts| == 1 {
      SplitAllNoDelimiter(parts[0], c);
    } else {
      SplitAllJoin(parts[1..], c);
      var tail := Join(parts[1..], [c]);
      SplitAllPrefix(parts[0], tail, c);
    }
  }

  /** A string without `c` splits into itself. */
  lemma {:induction false} SplitAllNoDelimiter(s: string, c: char)
    requires c !in s
    ensures SplitAll(s, c) == [s]
  {
    if |s| > 0 {
      assert c !in s[1..] by {
        forall i | 0 <= i < |s[1..]| ensures s[1..][i] != c { assert s[1..][i] == s[i + 1]; }
      }
      SplitAllNoDelimiter(s[1..], c);
      assert [s[0]] + s[1..] == s;
    }
  }

  /** A run without `c` followed by `c` adds one leading part. */
  lemma {:induction false} SplitAllPrefix(p: string, tail: string, c: char)
    requires c !in p
    ensures SplitAll(p + [c] + tail, c) == [p] + SplitAll(tail, c)
    decreases |p|
  {
    var s := p + [c] + tail;
    if |p| == 0 {
      assert s[0] == c;
      assert s[1..] == tail;
    } else {
      assert s[0] == p[0] && p[0] != c;
      assert c !in p[1..] by {
        forall i | 0 <= i < |p[1..]| ensures p[1..][i] != c { assert p[1..][i] == p[i + 1]; }
      }
      assert s[1..] == p[1..] + [c] + tail;
      SplitAllPrefix(p[1..], tail, c);
      assert [p[0]] + p[1..] == p;
    }
  }

  /** Whether `sub` occurs in `s` starting at index `i`. */
  predicate OccursAt(s: string, sub: string, i: int)
  {
    0 <= i && i + |sub| <= |s| && s[i..i + |sub|] == sub
  }

  /** An occurrence of `sub` at `i` ends the prefix of `s` up to its end. */
  lemma {:induction false} OccurrencePrefix(s: string, sub: string, i: int)
    requires OccursAt(s, sub, i)
    ensures s[..i + |sub|] == s[..i] + sub
  {
    assert s[..i + |sub|] == s[..i] + s[i..i + |sub|];
  }

  /** The largest `j <= i` at which `sub` occurs, or -1. */
  function LastIndexFrom(s: string, sub: string, i: int): (r: int)
    requires -1 <= i <= |s| - |sub|
    ensures -1 <= r <= i
    ensures r >= 0 ==> OccursAt(s, sub, r)
    ensures forall j :: r < j <= i ==> !OccursAt(s, sub, j)
    decreases i + 1
  {
    if i < 0 then -1
    else if s[i..i + |sub|] == sub then i
    else LastIndexFrom(s, sub, i - 1)
  }

  /** `s.lastIndexOf(sub)`: the last index at which `sub` occurs, -1 when it
      does not occur (the empty `sub` occurs at `|s|`). */
  function LastIndexOf(s: string, sub: string): (r: int)
    ensures r == -1 || OccursAt(s, sub, r)
    ensures forall j :: r < j ==> !OccursAt(s, sub, j)
  {
    if |sub| > |s| then -1 else LastIndexFrom(s, sub, |s| - |sub|)
  }

  /** `s.endsWith(suffix)`. */
  predicate EndsWith(s: string, suffix: string)
  {
    |suffix| <= |s| && s[|s| - |suffix|..] == suffix
  }

  /** `s.replace(from, to)` for one-character strings. */
  function ReplaceChar(s: string, from: char, to: char): (r: string)
    ensures |r| == |s|
    ensures forall i :: 0 <= i < |s| ==> r[i] == if s[i] == from then to else s[i]
  {
    if |s| == 0 then "" else [if s[0] == from then to else s[0]] + ReplaceChar(s[1..], from, to)
  }

  /** `String.compareTo`: the difference of the first differing characters,
      otherwise the difference of the lengths. */
  function CompareTo(a: string, b: string): int
  {
    if |a| == 0 || |b| == 0 then |a| - |b|
    else if a[0] != b[0] then a[0] as int - b[0] as int
    else CompareTo(a[1..], b[1..])
  }

  /** `compareTo` is antisymmetric and is zero exactly on equal strings. */
  lemma {:induction false} CompareToAntisymmetric(a: string, b: string)
    ensures CompareTo(a, b) == -CompareTo(b, a)
    ensures CompareTo(a, b) == 0 <==> a == b
  {
    if |a| > 0 && |b| > 0 && a[0] == b[0] {
      CompareToAntisymmetric(a[1..], b[1..]);
      assert a == [a[0]] + a[1..] && b == [b[0]] + b[1..];
    }
  }

  /** `compareTo` is transitive: below-below is below. */
  lemma {:induction false} CompareToTransitive(a: string, b: string, c: string)
    requires CompareTo(a, b) < 0 && CompareTo(b, c) < 0
    ensures CompareTo(a, c) < 0
  {
    if |a| > 0 && a[0] == b[0] && b[0] == c[0] {
      CompareToTransitive(a[1..], b[1..], c[1..]);
    }
  }

  /** Two strings that agree before position `k` and differ at it compare
      as their characters at `k` do. */
  lemma {:induction false} CompareToFirstDifference(a: string, b: string, k: nat)
    requires k < |a| && k < |b| && a[..k] == b[..k] && a[k] != b[k]
    ensures CompareTo(a, b) == a[k] as int - b[k] as int
  {
    if k > 0 {
      assert a[0] == a[..k][0] && b[0] == b[..k][0];
      assert a[1..][..k - 1] == a[..k][1..] && b[1..][..k - 1] == b[..k][1..];
      CompareToFirstDifference(a[1..], b[1..], k - 1);
    }
  }

  /** A proper prefix compares below the whole string. */
  lemma {:induction false} CompareToPrefix(a: string, b: string)
    requires a < b
    ensures CompareTo(a, b) < 0
  {
    if |a| > 0 {
      assert a[1..] < b[1..];
      CompareToPrefix(a[1..], b[1..]);
    }
  }

  function DigitChar(d: nat): char
    requires d < 10
  {
    "0123456789"[d]
  }

  /** Decimal digits of a natural number, most significant first. */
  function NatToString(n: nat): (r: string)
    ensures |r| >= 1
    ensures forall i :: 0 <= i < |r| ==> '0' <= r[i] <= '9'
  {
    if n < 10 then [DigitChar(n)] else NatToString(n / 10) + [DigitChar(n % 10)]
  }

  /** `Integer.toString`. */
  function IntToString(i: int): (r: string)
    ensures |r| >= 1
    ensures '^' !in r
  {
    if i < 0 then "-" + NatToString(-i) else NatToString(i)
  }
}
