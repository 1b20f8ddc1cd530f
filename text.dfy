/** The JavaScript string operations the components use: `toLowerCase` (ASCII letters only),
    `includes` and `replace` with a string pattern (first occurrence only), `trim`,
    `replace(/\D/g, '')` followed by `parseInt`, and `split` on one character. */
module Text {
  import opened Collections

  // ----- toLowerCase -----

  function LowerChar(c: char): char
  {
    if 'A' <= c <= 'Z' then (c as int - 'A' as int + 'a' as int) as char else c
  }

  /** `s.toLowerCase()` restricted to ASCII: every upper-case ASCII letter is mapped to its
      lower-case partner and every other character is kept. */
  function Lower(s: string): (r: string)
    ensures |r| == |s|
    ensures forall i :: 0 <= i < |s| ==> r[i] == LowerChar(s[i])
  {
    seq(|s|, i requires 0 <= i < |s| => LowerChar(s[i]))
  }

  // ----- includes and the first-occurrence search -----

  /** `p` occurs in `s` starting at index `i`. */
  ghost predicate OccursAt(s: string, p: string, i: int)
  {
    0 <= i && i + |p| <= |s| && s[i..i + |p|] == p
  }

  /** The first index at or after `k` where `p` occurs in `s`. */
  function IndexFrom(s: string, p: string, k: nat): (r: Option<nat>)
    ensures r.Some? ==> k <= r.value && OccursAt(s, p, r.value)
    ensures r.Some? ==> forall j :: k <= j < r.value ==> !OccursAt(s, p, j)
    ensures r.None? ==> forall j :: k <= j ==> !OccursAt(s, p, j)
    decreases |s| - k
  {
    if k + |p| > |s| then None
    else if s[k..k + |p|] == p then Some(k)
    else IndexFrom(s, p, k + 1)
  }

  /** The first index where `p` occurs in `s`, or `None`: the search `includes` and `replace`
      perform. */
  function IndexOf(s: string, p: string): (r: Option<nat>)
    ensures r.Some? ==> OccursAt(s, p, r.value) && forall j :: 0 <= j < r.value ==> !OccursAt(s, p, j)
    ensures r.None? ==> forall j :: !OccursAt(s, p, j)
  {
    IndexFrom(s, p, 0)
  }

  /** `s.includes(p)`: `p` is a contiguous substring of `s`. */
  function Contains(s: string, p: string): (r: bool)
    ensures r <==> exists i :: OccursAt(s, p, i)
  {
    IndexOf(s, p).Some?
  }

  /** Every string includes the empty string. */
  lemma ContainsEmpty(s: string)
    ensures Contains(s, "")
  {
    assert OccursAt(s, "", 0);
  }

  /** Every character of an included pattern is a character of the string. */
  lemma ContainedCharsOccur(s: string, p: string, k: nat)
    requires k < |p|
    ensures Contains(s, p) ==> p[k] in s
  {
    if Contains(s, p) {
      var i :| OccursAt(s, p, i);
      assert s[i + k] == p[k];
    }
  }

  /** A string none of whose characters lower-cases to a pattern's first character does not
      include that pattern once lower-cased. */
  lemma LowerLacksFirstChar(s: string, p: string)
    requires |p| >= 1
    requires forall i :: 0 <= i < |s| ==> LowerChar(s[i]) != p[0]
    ensures !Contains(Lower(s), p)
  {
    ContainedCharsOccur(Lower(s), p, 0);
  }

  /** Inclusion is one-directional: a pattern longer than the string never occurs in it. */
  lemma LongerNeverContained(s: string, p: string)
    requires |p| > |s|
    ensures !Contains(s, p)
  {
  }

  /** A pattern whose first character appears in `s` only at index 0 occurs in `s` only as a
      prefix. */
  lemma FirstCharOnlyAtStart(s: string, p: string)
    requires |p| >= 1 && |s| >= 1
    requires p[0] !in s[1..]
    requires !(|p| <= |s| && s[..|p|] == p)
    ensures !Contains(s, p)
  {
    forall i ensures !OccursAt(s, p, i) {
      if 1 <= i < |s| {
        assert s[i] == s[1..][i - 1];
      }
    }
  }

  // ----- replace(string, string) -----

  /** `s.replace(p, rep)` with a string pattern: only the first occurrence of `p` is replaced;
      without an occurrence `s` is returned unchanged. The replacement is inserted literally: the
      `$&`, `$$`, `` $` `` and `$'` patterns JavaScript expands are not interpreted (no caller
      passes a replacement containing `$`). */
  function ReplaceFirst(s: string, p: string, rep: string): (r: string)
    ensures !Contains(s, p) ==> r == s
    ensures Contains(s, p) ==> exists i :: OccursAt(s, p, i) && r == s[..i] + rep + s[i + |p|..]
                                && forall j :: 0 <= j < i ==> !OccursAt(s, p, j)
  {
    match IndexOf(s, p)
    case None => s
    case Some(i) => s[..i] + rep + s[i + |p|..]
  }

  /** Replacing a pattern by itself is a no-op. */
  lemma {:induction false} ReplaceBySelf(s: string, p: string)
    ensures ReplaceFirst(s, p, p) == s
  {
    match IndexOf(s, p)
    case None =>
    case Some(i) =>
      assert s[i..i + |p|] == p;
      assert s == s[..i] + s[i..i + |p|] + s[i + |p|..];
  }

  /** Deleting a pattern that the string starts with leaves the rest of the string. */
  lemma {:induction false} DeleteLeading(p: string, t: string)
    ensures ReplaceFirst(p + t, p, "") == t
  {
    var s := p + t;
    assert s[0..|p|] == p;
    assert OccursAt(s, p, 0);
    assert IndexOf(s, p) == Some(0);
    assert s[|p|..] == t;
  }

  /** A pattern whose first character does not appear in `a` is first found right after `a`:
      `(a + p + b).replace(p, rep)` is `a + rep + b`. */
  lemma {:induction false} ReplaceAfterPrefix(a: string, p: string, b: string, rep: string)
    requires |p| >= 1 && p[0] !in a
    ensures ReplaceFirst(a + p + b, p, rep) == a + rep + b
  {
    var s := a + p + b;
    assert s[|a|..|a| + |p|] == p;
    assert OccursAt(s, p, |a|);
    forall j | 0 <= j < |a| ensures !OccursAt(s, p, j) {
      assert s[j] == a[j];
      if j + |p| <= |s| {
        assert s[j..j + |p|][0] == s[j];
      }
    }
    assert IndexOf(s, p) == Some(|a|);
    assert s[..|a|] == a && s[|a| + |p|..] == b;
  }

  /** `a + q` does not include `p` when `p`'s first character appears neither in `a` nor in `q`
      past its first position, and `q` does not start with `p`. */
  lemma {:induction false} AbsentAfterPrefix(a: string, q: string, p: string)
    requires |p| >= 1 && p[0] !in a && |q| >= 1 && p[0] !in q[1..]
    requires !(|p| <= |q| && q[..|p|] == p)
    ensures !Contains(a + q, p)
  {
    var s := a + q;
    forall j ensures !OccursAt(s, p, j) {
      if 0 <= j && j + |p| <= |s| {
        assert s[j..j + |p|][0] == s[j];
        if j < |a| {
          assert s[j] == a[j];
        } else if j == |a| {
          assert s[j..j + |p|] == q[..|p|];
        } else {
          assert s[j] == q[1..][j - |a| - 1];
        }
      }
    }
  }

  // ----- trim -----

  /** The characters `String.prototype.trim` removes, by code point: tab, line feed, vertical tab,
      form feed and carriage return (0x09-0x0D), space, no-break space, the Unicode space separators
      (0x1680, 0x2000-0x200A, 0x202F, 0x205F, 0x3000), the line and paragraph separators
      (0x2028, 0x2029) and the byte-order mark (0xFEFF). */
  predicate IsWhitespace(c: char)
  {
    var n := c as int;
    (0x09 <= n <= 0x0D) || n == 0x20 || n == 0xA0 || n == 0x1680 || (0x2000 <= n <= 0x200A)
    || n == 0x2028 || n == 0x2029 || n == 0x202F || n == 0x205F || n == 0x3000 || n == 0xFEFF
  }

  predicate AllWhitespace(s: string)
  {
    forall i :: 0 <= i < |s| ==> IsWhitespace(s[i])
  }

  /** The number of white-space characters at the start of `s`. */
  function LeadingWhitespace(s: string): (n: nat)
    ensures n <= |s|
    ensures AllWhitespace(s[..n])
    ensures n == |s| || !IsWhitespace(s[n])
  {
    if s != [] && IsWhitespace(s[0]) then
      var m := LeadingWhitespace(s[1..]);
      assert forall i :: 1 <= i <= m ==> s[i] == s[1..][..m][i - 1];
      m + 1
    else 0
  }

  /** Drops the leading white space: the result is a suffix of `s` that is empty or starts with a
      non-white-space character, and everything dropped is white space. */
  function TrimStart(s: string): (r: string)
    ensures |r| <= |s| && r == s[|s| - |r|..]
    ensures r == [] || !IsWhitespace(r[0])
    ensures AllWhitespace(s[..|s| - |r|])
  {
    s[LeadingWhitespace(s)..]
  }

  /** Drops the trailing white space: the result is a prefix of `s` that is empty or ends with a
      non-white-space character, and everything dropped is white space. */
  function TrimEnd(s: string): (r: string)
    ensures |r| <= |s| && r == s[..|r|]
    ensures r == [] || !IsWhitespace(r[|r| - 1])
    ensures AllWhitespace(s[|r|..])
  {
    if s != [] && IsWhitespace(s[|s| - 1]) then
      var r := TrimEnd(s[..|s| - 1]);
      assert s[|r|..] == s[..|s| - 1][|r|..] + [s[|s| - 1]];
      r
    else s
  }

  /** `s.trim()`: `s` with its leading and trailing white space removed. */
  function Trim(s: string): (r: string)
    ensures |r| <= |s|
    ensures r == [] || (!IsWhitespace(r[0]) && !IsWhitespace(r[|r| - 1]))
    ensures exists k :: 0 <= k && k + |r| <= |s| && r == s[k..k + |r|]
                        && AllWhitespace(s[..k]) && AllWhitespace(s[k + |r|..])
  {
    var t := TrimStart(s);
    var k := |s| - |t|;
    var r := TrimEnd(t);
    assert r == s[k..k + |r|];
    assert s[k + |r|..] == t[|r|..];
    r
  }

  /** `!s.trim()` holds exactly when `s` is empty or made of white space only. */
  lemma BlankIffAllWhitespace(s: string)
    ensures Trim(s) == "" <==> AllWhitespace(s)
  {
    var t := TrimStart(s);
    if Trim(s) == "" {
      assert AllWhitespace(t[0..]);
      assert t[0..] == t;
      assert t == [];
      assert s[..|s| - |t|] == s;
    } else {
      assert t != [] ==> t[0] == s[|s| - |t|];
    }
  }

  // ----- replace(/\D/g, '') and parseInt -----

  predicate IsDigit(c: char)
  {
    '0' <= c <= '9'
  }

  /** `s.replace(/\D/g, '')`: the decimal digits of `s`, in order. */
  function DigitsOf(s: string): (r: string)
    ensures forall i :: 0 <= i < |r| ==> IsDigit(r[i])
    ensures forall c :: c in r <==> c in s && IsDigit(c)
  {
    Filter(IsDigit, s)
  }

  /** The value of a string of decimal digits, most significant first. */
  function DecimalValue(d: string): nat
    requires forall i :: 0 <= i < |d| ==> IsDigit(d[i])
  {
    if d == [] then 0
    else
      assert IsDigit(d[|d| - 1]);
      10 * DecimalValue(d[..|d| - 1]) + (d[|d| - 1] as int - '0' as int)
  }

  /** `parseInt` of a string that holds only decimal digits: `None` (NaN) for the empty string. */
  function ParseDigits(d: string): (r: Option<nat>)
    requires forall i :: 0 <= i < |d| ==> IsDigit(d[i])
    ensures r.None? <==> d == []
  {
    if d == [] then None else Some(DecimalValue(d))
  }

  /** `parseInt(s.replace(/\D/g, ''))`: the number spelt by the digits of `s`, or `None` (NaN)
      when `s` has no digit at all. */
  function NumberIn(s: string): (r: Option<nat>)
    ensures r.None? <==> forall i :: 0 <= i < |s| ==> !IsDigit(s[i])
  {
    var d := DigitsOf(s);
    assert d != [] ==> d[0] in s;
    assert forall i :: 0 <= i < |s| && IsDigit(s[i]) ==> s[i] in d;
    ParseDigits(d)
  }

  /** The decimal rendering of `n`, without separators or leading zeros. */
  function ShowNat(n: nat): (r: string)
    ensures |r| >= 1
    ensures forall i :: 0 <= i < |r| ==> IsDigit(r[i])
  {
    var last := [('0' as int + n % 10) as char];
    if n < 10 then last else ShowNat(n / 10) + last
  }

  /** Reading back the rendering of a number gives the number. */
  lemma {:induction false} DecimalValueOfShowNat(n: nat)
    ensures DecimalValue(ShowNat(n)) == n
  {
    if n >= 10 {
      var r := ShowNat(n);
      assert r[..|r| - 1] == ShowNat(n / 10);
      DecimalValueOfShowNat(n / 10);
    }
  }

  /** A number written after a digit-free prefix is read back exactly: for instance the digits of
      "AED " followed by the rendering of 8500. Separators are covered by `NumberIn` directly. */
  lemma NumberInAfterPrefix(prefix: string, n: nat)
    requires forall i :: 0 <= i < |prefix| ==> !IsDigit(prefix[i])
    ensures NumberIn(prefix + ShowNat(n)) == Some(n)
  {
    FilterConcat(IsDigit, prefix, ShowNat(n));
    FilterKeepsNone(IsDigit, prefix);
    FilterKeepsAll(IsDigit, ShowNat(n));
    assert DigitsOf(prefix + ShowNat(n)) == ShowNat(n);
    DecimalValueOfShowNat(n);
  }

  /** A figure written with one thousands separator after a digit-free tag keeps only its digits:
      the digits of "AED " + "8" + "," + "500" are "8500". */
  lemma DigitsAroundSeparator(tag: string, high: string, sep: string, low: string)
    requires forall i :: 0 <= i < |tag| ==> !IsDigit(tag[i])
    requires forall i :: 0 <= i < |sep| ==> !IsDigit(sep[i])
    requires forall c :: c in high ==> IsDigit(c)
    requires forall c :: c in low ==> IsDigit(c)
    ensures DigitsOf(tag + high + sep + low) == high + low
  {
    var front := tag + high;
    FilterConcat(IsDigit, tag, high);
    FilterKeepsNone(IsDigit, tag);
    FilterKeepsAll(IsDigit, high);
    assert Filter(IsDigit, front) == high;
    FilterConcat(IsDigit, front, sep);
    FilterKeepsNone(IsDigit, sep);
    assert Filter(IsDigit, front + sep) == high;
    FilterConcat(IsDigit, front + sep, low);
    FilterKeepsAll(IsDigit, low);
  }

  // ----- split on one character -----

  /** `s.split(sep)` for a one-character separator: always at least one part, no part contains
      the separator, and joining the parts with the separator gives back `s` (`JoinSplit`). */
  function Split(s: string, sep: char): (parts: seq<string>)
    ensures |parts| >= 1
    ensures forall k :: 0 <= k < |parts| ==> sep !in parts[k]
    decreases |s|
  {
    if s == [] then [""]
    else
      var rest := Split(s[1..], sep);
      if s[0] == sep then [""] + rest
      else [[s[0]] + rest[0]] + rest[1..]
  }

  /** `parts.join(sep)`. */
  function Join(parts: seq<string>, sep: char): string
    requires |parts| >= 1
  {
    if |parts| == 1 then parts[0] else parts[0] + [sep] + Join(parts[1..], sep)
  }

  lemma {:induction false} JoinSplit(s: string, sep: char)
    ensures Join(Split(s, sep), sep) == s
    decreases |s|
  {
    if s != [] {
      var rest := Split(s[1..], sep);
      JoinSplit(s[1..], sep);
      if s[0] == sep {
        assert ([""] + rest)[1..] == rest;
      } else {
        var parts := [[s[0]] + rest[0]] + rest[1..];
        if |rest| == 1 {
          assert parts == [[s[0]] + rest[0]];
        } else {
          assert parts[1..] == rest[1..];
          assert Join(rest, sep) == rest[0] + [sep] + Join(rest[1..], sep);
        }
      }
    }
  }

  /** Splitting a separator-free word followed by more text only extends the first part. */
  lemma {:induction false} SplitAfterWord(w: string, t: string, sep: char)
    requires sep !in w
    ensures Split(w + t, sep) == [w + Split(t, sep)[0]] + Split(t, sep)[1..]
    decreases |w|
  {
    if w != [] {
      assert (w + t)[0] == w[0] && (w + t)[1..] == w[1..] + t;
      SplitAfterWord(w[1..], t, sep);
      assert [w[0]] + (w[1..] + Split(t, sep)[0]) == w + Split(t, sep)[0];
    } else {
      var parts := Split(t, sep);
      assert w + t == t && w + parts[0] == parts[0];
      assert parts == [parts[0]] + parts[1..];
    }
  }

  /** Splitting separator-free parts joined by the separator gives back the parts. */
  lemma {:induction false} SplitJoin(parts: seq<string>, sep: char)
    requires |parts| >= 1
    requires forall k :: 0 <= k < |parts| ==> sep !in parts[k]
    ensures Split(Join(parts, sep), sep) == parts
    decreases |parts|
  {
    if |parts| == 1 {
      SplitAfterWord(parts[0], "", sep);
      assert parts[0] + "" == parts[0];
    } else {
      var tail := Join(parts[1..], sep);
      SplitJoin(parts[1..], sep);
      var t := [sep] + tail;
      assert t[0] == sep && t[1..] == tail;
      assert Split(t, sep) == [""] + parts[1..];
      assert parts[0] + [sep] + tail == parts[0] + t;
      SplitAfterWord(parts[0], t, sep);
      assert parts[0] + "" == parts[0];
    }
  }
}
