/** Text primitives shared by the whole model: the whitespace class of JavaScript
 *  regular expressions and `trim`, ASCII case mapping, prefix and substring tests,
 *  splitting and joining on one separator character, left padding, and decimal
 *  number text (`String(n)` and `parseInt`). */
module Strings {

  import opened Wrappers

  // ---------------------------------------------------------------------------
  // Characters
  // ---------------------------------------------------------------------------

  /** The characters matched by `\s` and removed by `String.prototype.trim`. */
  predicate IsWhitespace(c: char)
  {
    || c == ' ' || c == '\t' || c == '\n' || c == '\r' || c == '\U{000B}' || c == '\U{000C}'
    || c == '\U{00A0}' || c == '\U{1680}' || ('\U{2000}' <= c <= '\U{200A}')
    || c == '\U{2028}' || c == '\U{2029}' || c == '\U{202F}' || c == '\U{205F}'
    || c == '\U{3000}' || c == '\U{FEFF}'
  }

  predicate NoWhitespace(s: string)
  {
    forall i :: 0 <= i < |s| ==> !IsWhitespace(s[i])
  }

  predicate IsUpper(c: char) { 'A' <= c <= 'Z' }

  predicate IsDigit(c: char) { '0' <= c <= '9' }

  predicate IsAsciiLetter(c: char) { 'a' <= c <= 'z' || 'A' <= c <= 'Z' }

  /** ASCII lower-casing of one character. */
  function LowerChar(c: char): (r: char)
    ensures !IsUpper(r)
    ensures IsWhitespace(r) <==> IsWhitespace(c)
    ensures r == c <==> !IsUpper(c)
  {
    if IsUpper(c) then (c as int + 32) as char else c
  }

  predicate IsLower(s: string)
  {
    forall i :: 0 <= i < |s| ==> !IsUpper(s[i])
  }

  /** `toLowerCase`, on the ASCII letters. */
  function ToLower(s: string): (r: string)
    ensures |r| == |s| && IsLower(r)
    ensures forall i :: 0 <= i < |s| ==> r[i] == LowerChar(s[i])
  {
    seq(|s|, i requires 0 <= i < |s| => LowerChar(s[i]))
  }

  /** Lower-casing works character by character, so it distributes over `+`. */
  lemma ToLowerAppend(x: string, y: string)
    ensures ToLower(x + y) == ToLower(x) + ToLower(y)
  {
    assert forall i :: 0 <= i < |x + y| ==> (x + y)[i] == if i < |x| then x[i] else y[i - |x|];
  }

  lemma ToLowerOfLower(s: string)
    requires IsLower(s)
    ensures ToLower(s) == s
  {
  }

  lemma ToLowerKeepsNoWhitespace(s: string)
    requires NoWhitespace(s)
    ensures NoWhitespace(ToLower(s))
  {
  }

  /** Equality up to ASCII case, as the `i` flag of a regular expression compares. */
  predicate EqualsIgnoreCase(a: string, b: string)
  {
    |a| == |b| && forall i :: 0 <= i < |a| ==> LowerChar(a[i]) == LowerChar(b[i])
  }

  // ---------------------------------------------------------------------------
  // Prefixes, suffixes, substrings
  // ---------------------------------------------------------------------------

  predicate StartsWith(s: string, p: string)
  {
    |p| <= |s| && s[..|p|] == p
  }

  predicate EndsWith(s: string, p: string)
  {
    |p| <= |s| && s[|s| - |p|..] == p
  }

  /** `s.includes(p)`. */
  predicate Contains(s: string, p: string)
    decreases |s|
  {
    StartsWith(s, p) || (|s| > 0 && Contains(s[1..], p))
  }

  lemma StartsWithAppend(p: string, rest: string)
    ensures StartsWith(p + rest, p)
  {
    assert (p + rest)[..|p|] == p;
  }

  /** `LastIndexOf` is the position of a `c` with no `c` after it. */
  lemma LastIndexOfUnique(s: string, c: char, r: nat)
    requires r < |s| && s[r] == c
    requires forall j :: r < j < |s| ==> s[j] != c
    ensures LastIndexOf(s, c) == r
  {
    var k := LastIndexOf(s, c);
    assert forall j :: k < j < |s| ==> s[j] == s[k + 1..][j - k - 1];
  }

  /** Index of the first `c` in `s`, or -1. */
  function IndexOf(s: string, c: char): (r: int)
    ensures -1 <= r < |s|
    ensures r == -1 <==> c !in s
    ensures r >= 0 ==> s[r] == c && c !in s[..r]
    decreases |s|
  {
    if |s| == 0 then -1
    else if s[0] == c then 0
    else
      var k := IndexOf(s[1..], c);
      if k == -1 then -1 else k + 1
  }

  /** Index of the last `c` in `s`, or -1 (`lastIndexOf`). */
  function LastIndexOf(s: string, c: char): (r: int)
    ensures -1 <= r < |s|
    ensures r == -1 <==> c !in s
    ensures r >= 0 ==> s[r] == c && c !in s[r + 1..]
    decreases |s|
  {
    if |s| == 0 then -1
    else if s[|s| - 1] == c then |s| - 1
    else
      var init := s[..|s| - 1];
      var k := LastIndexOf(init, c);
      assert s == init + [s[|s| - 1]];
      assert k >= 0 ==> s[k + 1..] == init[k + 1..] + [s[|s| - 1]];
      k
  }

  // ---------------------------------------------------------------------------
  // Trimming and whitespace runs
  // ---------------------------------------------------------------------------

  function TrimStart(s: string): (r: string)
    ensures |r| <= |s|
    ensures r == [] || !IsWhitespace(r[0])
    ensures (s == [] || !IsWhitespace(s[0])) ==> r == s
    decreases |s|
  {
    if |s| > 0 && IsWhitespace(s[0]) then TrimStart(s[1..]) else s
  }

  function TrimEnd(s: string): (r: string)
    ensures |r| <= |s|
    ensures r == [] || !IsWhitespace(r[|r| - 1])
    ensures (s == [] || !IsWhitespace(s[|s| - 1])) ==> r == s
    decreases |s|
  {
    if |s| > 0 && IsWhitespace(s[|s| - 1]) then TrimEnd(s[..|s| - 1]) else s
  }

  /** Trimming the start leaves a suffix. */
  lemma {:induction false} TrimStartIsSuffix(s: string)
    ensures TrimStart(s) == s[|s| - |TrimStart(s)|..]
    decreases |s|
  {
    if |s| > 0 && IsWhitespace(s[0]) {
      TrimStartIsSuffix(s[1..]);
    }
  }

  /** Trimming the end leaves a prefix. */
  lemma {:induction false} TrimEndIsPrefix(s: string)
    ensures TrimEnd(s) == s[..|TrimEnd(s)|]
    decreases |s|
  {
    if |s| > 0 && IsWhitespace(s[|s| - 1]) {
      TrimEndIsPrefix(s[..|s| - 1]);
    }
  }

  /** `String.prototype.trim`. */
  function Trim(s: string): (r: string)
    ensures |r| <= |s|
    ensures r == [] || (!IsWhitespace(r[0]) && !IsWhitespace(r[|r| - 1]))
    ensures NoWhitespace(s) ==> r == s
  {
    var t := TrimStart(s);
    var r := TrimEnd(t);
    TrimEndIsPrefix(t);
    assert r != [] ==> r[0] == t[0];
    r
  }

  lemma TrimIdempotent(s: string)
    ensures Trim(Trim(s)) == Trim(s)
  {
  }

  /** A trimmed string is a contiguous piece of the original. */
  lemma TrimIsSlice(s: string)
    ensures exists i, j :: 0 <= i <= j <= |s| && Trim(s) == s[i..j]
  {
    var t := TrimStart(s);
    var i := |s| - |t|;
    var r := TrimEnd(t);
    TrimStartIsSuffix(s);
    TrimEndIsPrefix(t);
    assert r == s[i..i + |r|];
  }

  /** `s.replace(/\s+/g, rep)`: every maximal run of whitespace becomes `rep`. */
  function ReplaceWhitespaceRuns(s: string, rep: string): (r: string)
    decreases |s|
  {
    if s == [] then []
    else if IsWhitespace(s[0]) then rep + ReplaceWhitespaceRuns(TrimStart(s), rep)
    else [s[0]] + ReplaceWhitespaceRuns(s[1..], rep)
  }

  lemma {:induction false} ReplaceRunsNoWhitespace(s: string, rep: string)
    requires NoWhitespace(rep)
    ensures NoWhitespace(ReplaceWhitespaceRuns(s, rep))
    decreases |s|
  {
    if s == [] {
    } else if IsWhitespace(s[0]) {
      ReplaceRunsNoWhitespace(TrimStart(s), rep);
    } else {
      ReplaceRunsNoWhitespace(s[1..], rep);
    }
  }

  /** Whitespace-run replacement only copies characters of the input and of `rep`. */
  lemma {:induction false} ReplaceRunsChars(s: string, rep: string)
    ensures forall i :: 0 <= i < |ReplaceWhitespaceRuns(s, rep)| ==>
      ReplaceWhitespaceRuns(s, rep)[i] in s || ReplaceWhitespaceRuns(s, rep)[i] in rep
    decreases |s|
  {
    if s == [] {
    } else if IsWhitespace(s[0]) {
      var t := TrimStart(s);
      ReplaceRunsChars(t, rep);
      TrimStartIsSuffix(s);
      assert forall x :: x in t ==> x in s;
    } else {
      ReplaceRunsChars(s[1..], rep);
      assert forall x :: x in s[1..] ==> x in s;
    }
  }

  lemma {:induction false} ReplaceRunsIdentity(s: string, rep: string)
    requires NoWhitespace(s)
    ensures ReplaceWhitespaceRuns(s, rep) == s
    decreases |s|
  {
    if s != [] {
      ReplaceRunsIdentity(s[1..], rep);
    }
  }

  predicate AllWhitespace(s: string)
  {
    forall i :: 0 <= i < |s| ==> IsWhitespace(s[i])
  }

  /** Trimming the start of a concatenation: a left part that is all whitespace goes
   *  away entirely, otherwise only its own leading whitespace does. */
  lemma {:induction false} TrimStartConcat(x: string, y: string)
    ensures TrimStart(x + y) == if TrimStart(x) == [] then TrimStart(y) else TrimStart(x) + y
    decreases |x|
  {
    if x == [] {
      assert x + y == y;
    } else if IsWhitespace(x[0]) {
      assert (x + y)[1..] == x[1..] + y;
      TrimStartConcat(x[1..], y);
    }
  }

  /** Trimming the end of a concatenation, symmetrically. */
  lemma {:induction false} TrimEndConcat(x: string, y: string)
    ensures TrimEnd(x + y) == if TrimEnd(y) == [] then TrimEnd(x) else x + TrimEnd(y)
    decreases |y|
  {
    if y == [] {
      assert x + y == x;
    } else if IsWhitespace(y[|y| - 1]) {
      assert (x + y)[..|x + y| - 1] == x + y[..|y| - 1];
      TrimEndConcat(x, y[..|y| - 1]);
    }
  }

  lemma {:induction false} TrimStartOfWhitespace(w: string)
    requires AllWhitespace(w)
    ensures TrimStart(w) == []
    decreases |w|
  {
    if w != [] {
      TrimStartOfWhitespace(w[1..]);
    }
  }

  /** A string ending in a non-whitespace character keeps it when its start is
   *  trimmed. */
  lemma {:induction false} TrimStartKeepsLast(a: string)
    requires a != [] && !IsWhitespace(a[|a| - 1])
    ensures TrimStart(a) != [] && TrimStart(a)[|TrimStart(a)| - 1] == a[|a| - 1]
    decreases |a|
  {
    if IsWhitespace(a[0]) {
      TrimStartKeepsLast(a[1..]);
    }
  }

  /** A string starting with a non-whitespace character keeps it when its end is
   *  trimmed. */
  lemma {:induction false} TrimEndKeepsFirst(b: string)
    requires b != [] && !IsWhitespace(b[0])
    ensures TrimEnd(b) != [] && TrimEnd(b)[0] == b[0]
    decreases |b|
  {
    if IsWhitespace(b[|b| - 1]) {
      TrimEndKeepsFirst(b[..|b| - 1]);
    }
  }

  /** A whitespace run between two non-whitespace characters becomes exactly one `rep`,
   *  and the text on either side is replaced on its own. */
  lemma {:induction false} ReplaceRunsSplit(a: string, w: string, b: string, rep: string)
    requires a == [] || !IsWhitespace(a[|a| - 1])
    requires w != [] && AllWhitespace(w)
    requires b == [] || !IsWhitespace(b[0])
    ensures ReplaceWhitespaceRuns(a + w + b, rep) ==
      ReplaceWhitespaceRuns(a, rep) + rep + ReplaceWhitespaceRuns(b, rep)
    decreases |a|, 1
  {
    if a == [] {
      assert a + w + b == w + b;
      ReplaceRunsLeadingRun(w, b, rep);
    } else if IsWhitespace(a[0]) {
      ReplaceRunsSplitAfterRun(a, w, b, rep);
    } else {
      ReplaceRunsSplitAfterChar(a, w, b, rep);
    }
  }

  lemma {:induction false} ReplaceRunsSplitAfterRun(a: string, w: string, b: string, rep: string)
    requires a != [] && IsWhitespace(a[0]) && !IsWhitespace(a[|a| - 1])
    requires w != [] && AllWhitespace(w)
    requires b == [] || !IsWhitespace(b[0])
    ensures ReplaceWhitespaceRuns(a + w + b, rep) ==
      ReplaceWhitespaceRuns(a, rep) + rep + ReplaceWhitespaceRuns(b, rep)
    decreases |a|, 0
  {
    TrimStartKeepsLast(a);
    var t := TrimStart(a);
    assert t == TrimStart(a[1..]);
    ReplaceRunsSplit(t, w, b, rep);
    ReplaceRunsSkipsLeading(a, w, b, rep);
    AppendAssoc(rep, ReplaceWhitespaceRuns(t, rep), rep, ReplaceWhitespaceRuns(b, rep));
  }

  lemma {:induction false} ReplaceRunsSplitAfterChar(a: string, w: string, b: string, rep: string)
    requires a != [] && !IsWhitespace(a[0]) && !IsWhitespace(a[|a| - 1])
    requires w != [] && AllWhitespace(w)
    requires b == [] || !IsWhitespace(b[0])
    ensures ReplaceWhitespaceRuns(a + w + b, rep) ==
      ReplaceWhitespaceRuns(a, rep) + rep + ReplaceWhitespaceRuns(b, rep)
    decreases |a|, 0
  {
    ReplaceRunsSplit(a[1..], w, b, rep);
    ReplaceRunsKeepsFirst(a, w, b, rep);
    AppendAssoc([a[0]], ReplaceWhitespaceRuns(a[1..], rep), rep, ReplaceWhitespaceRuns(b, rep));
  }

  lemma AppendAssoc(p: string, q: string, r: string, t: string)
    ensures p + (q + r + t) == p + q + r + t
  {
  }

  lemma ReplaceRunsLeadingRun(w: string, b: string, rep: string)
    requires w != [] && AllWhitespace(w)
    requires b == [] || !IsWhitespace(b[0])
    ensures ReplaceWhitespaceRuns(w + b, rep) == rep + ReplaceWhitespaceRuns(b, rep)
  {
    assert (w + b)[0] == w[0];
    TrimStartOfWhitespace(w);
    TrimStartConcat(w, b);
  }

  /** Leading whitespace of `a` is one run, whatever follows `a`. */
  lemma ReplaceRunsSkipsLeading(a: string, w: string, b: string, rep: string)
    requires a != [] && IsWhitespace(a[0]) && TrimStart(a) != []
    ensures ReplaceWhitespaceRuns(a + w + b, rep) == rep + ReplaceWhitespaceRuns(TrimStart(a) + w + b, rep)
    ensures ReplaceWhitespaceRuns(a, rep) == rep + ReplaceWhitespaceRuns(TrimStart(a), rep)
  {
    assert (a + w + b)[0] == a[0];
    assert a + w + b == a + (w + b);
    assert TrimStart(a) + w + b == TrimStart(a) + (w + b);
    TrimStartConcat(a, w + b);
  }

  /** A leading non-whitespace character is copied, whatever follows `a`. */
  lemma ReplaceRunsKeepsFirst(a: string, w: string, b: string, rep: string)
    requires a != [] && !IsWhitespace(a[0])
    ensures ReplaceWhitespaceRuns(a + w + b, rep) == [a[0]] + ReplaceWhitespaceRuns(a[1..] + w + b, rep)
    ensures ReplaceWhitespaceRuns(a, rep) == [a[0]] + ReplaceWhitespaceRuns(a[1..], rep)
  {
    assert (a + w + b)[0] == a[0] && (a + w + b)[1..] == a[1..] + w + b;
  }

  /** A non-whitespace character at the end is kept as the last character. */
  lemma {:induction false} ReplaceRunsAppendChar(x: string, c: char, rep: string)
    requires !IsWhitespace(c)
    ensures ReplaceWhitespaceRuns(x + [c], rep) == ReplaceWhitespaceRuns(x, rep) + [c]
    decreases |x|
  {
    var s := x + [c];
    if x == [] {
      assert s == [c] && s[1..] == [];
    } else if IsWhitespace(x[0]) {
      assert s[0] == x[0];
      TrimStartConcat(x, [c]);
      var t := TrimStart(x);
      assert t == TrimStart(x[1..]);
      if t == [] {
        assert [c][1..] == [];
      } else {
        ReplaceRunsAppendChar(t, c, rep);
      }
    } else {
      assert s[0] == x[0] && s[1..] == x[1..] + [c];
      ReplaceRunsAppendChar(x[1..], c, rep);
    }
  }

  /** A text that starts and ends with non-whitespace characters keeps both: no `rep`
   *  stands at either end. */
  lemma ReplaceRunsEdges(s: string, rep: string)
    requires s != [] && !IsWhitespace(s[0]) && !IsWhitespace(s[|s| - 1])
    ensures var r := ReplaceWhitespaceRuns(s, rep);
      r != [] && r[0] == s[0] && r[|r| - 1] == s[|s| - 1]
  {
    assert s == s[..|s| - 1] + [s[|s| - 1]];
    ReplaceRunsAppendChar(s[..|s| - 1], s[|s| - 1], rep);
  }

  lemma {:induction false} ReplaceRunsKeepsLower(s: string, rep: string)
    requires IsLower(s) && IsLower(rep)
    ensures IsLower(ReplaceWhitespaceRuns(s, rep))
    decreases |s|
  {
    if s == [] {
    } else if IsWhitespace(s[0]) {
      TrimStartIsSuffix(s);
      ReplaceRunsKeepsLower(TrimStart(s), rep);
    } else {
      ReplaceRunsKeepsLower(s[1..], rep);
    }
  }

  // ---------------------------------------------------------------------------
  // Split and join
  // ---------------------------------------------------------------------------

  /** `s.split(d)` for a one-character separator: never empty, pieces free of `d`. */
  function Split(s: string, d: char): (r: seq<string>)
    ensures |r| >= 1
    ensures forall k :: 0 <= k < |r| ==> d !in r[k]
    decreases |s|
  {
    var i := IndexOf(s, d);
    if i == -1 then [s] else [s[..i]] + Split(s[i + 1..], d)
  }

  /** `parts.join(d)`. */
  function Join(parts: seq<string>, d: char): string
    decreases |parts|
  {
    if parts == [] then ""
    else if |parts| == 1 then parts[0]
    else parts[0] + [d] + Join(parts[1..], d)
  }

  /** Joining the pieces of a split restores the text. */
  lemma {:induction false} JoinSplit(s: string, d: char)
    ensures Join(Split(s, d), d) == s
    decreases |s|
  {
    var i := IndexOf(s, d);
    if i != -1 {
      JoinSplit(s[i + 1..], d);
      assert s == s[..i] + [d] + s[i + 1..];
    }
  }

  /** Splitting a join of separator-free pieces gives the pieces back. */
  lemma {:induction false} SplitJoin(parts: seq<string>, d: char)
    requires |parts| >= 1
    requires forall k :: 0 <= k < |parts| ==> d !in parts[k]
    ensures Split(Join(parts, d), d) == parts
    decreases |parts|
  {
    if |parts| > 1 {
      var s := Join(parts, d);
      var rest := Join(parts[1..], d);
      assert s == parts[0] + ([d] + rest);
      IndexOfAfterFree(parts[0], d, [d] + rest);
      assert s[..|parts[0]|] == parts[0];
      assert s[|parts[0]| + 1..] == rest;
      SplitJoin(parts[1..], d);
    } else {
      assert IndexOf(parts[0], d) == -1;
    }
  }

  /** Splitting two separator-free pieces joined by one separator gives them back. */
  lemma SplitTwo(a: string, d: char, b: string)
    requires d !in a && d !in b
    ensures Split(a + [d] + b, d) == [a, b]
  {
    assert Join([a, b], d) == a + [d] + b by {
      assert [a, b][1..] == [b];
    }
    SplitJoin([a, b], d);
  }

  lemma IndexOfAfterFree(a: string, d: char, b: string)
    requires d !in a && |b| > 0 && b[0] == d
    ensures IndexOf(a + b, d) == |a|
  {
    var s := a + b;
    assert s[|a|] == d;
    assert s[..|a|] == a;
  }

  /** A join of pieces free of a character `c` other than the separator is free of `c`. */
  lemma {:induction false} JoinFree(parts: seq<string>, d: char, c: char)
    requires c != d
    requires forall k :: 0 <= k < |parts| ==> c !in parts[k]
    ensures c !in Join(parts, d)
    decreases |parts|
  {
    if |parts| > 1 {
      JoinFree(parts[1..], d, c);
    }
  }

  // ---------------------------------------------------------------------------
  // Padding
  // ---------------------------------------------------------------------------

  function Repeat(c: char, n: nat): (r: string)
    ensures |r| == n && forall i :: 0 <= i < n ==> r[i] == c
  {
    seq(n, i => c)
  }

  /** `s.padStart(n, c)`. */
  function PadStart(s: string, n: nat, c: char): string
  {
    if |s| >= n then s else Repeat(c, n - |s|) + s
  }

  // ---------------------------------------------------------------------------
  // Decimal number text
  // ---------------------------------------------------------------------------

  function DigitChar(d: nat): (c: char)
    requires d < 10
    ensures IsDigit(c)
  {
    ('0' as int + d) as char
  }

  function DigitValue(c: char): (d: nat)
    requires IsDigit(c)
    ensures d < 10 && DigitChar(d) == c
  {
    c as int - '0' as int
  }

  predicate AllDigits(s: string)
  {
    forall i :: 0 <= i < |s| ==> IsDigit(s[i])
  }

  /** `String(n)` for a non-negative integer. */
  function NatToString(n: nat): (r: string)
    ensures |r| >= 1 && AllDigits(r)
    ensures |r| > 1 ==> r[0] != '0'
  {
    if n < 10 then [DigitChar(n)] else NatToString(n / 10) + [DigitChar(n % 10)]
  }

  /** `String(i)` for any integer. */
  function IntToString(i: int): string
  {
    if i < 0 then "-" + NatToString(-i) else NatToString(i)
  }

  /** The value of a string of decimal digits. */
  function DigitsValue(s: string): nat
    requires AllDigits(s)
    decreases |s|
  {
    if s == [] then 0 else DigitsValue(s[..|s| - 1]) * 10 + DigitValue(s[|s| - 1])
  }

  /** The longest prefix of `s` made of decimal digits. */
  function LeadingDigits(s: string): (r: string)
    ensures AllDigits(r) && StartsWith(s, r)
    ensures |r| < |s| ==> !IsDigit(s[|r|])
    decreases |s|
  {
    if |s| > 0 && IsDigit(s[0]) then [s[0]] + LeadingDigits(s[1..]) else []
  }

  /** `parseInt(s)` in base 10: skips leading whitespace, takes an optional sign and the
   *  longest run of digits; `None` stands for `NaN` (no digit at all). */
  function ParseInt(s: string): (r: Option<int>)
  {
    var t := TrimStart(s);
    var negative := |t| > 0 && t[0] == '-';
    var body := if |t| > 0 && (t[0] == '-' || t[0] == '+') then t[1..] else t;
    var ds := LeadingDigits(body);
    if ds == [] then None
    else
      var v: int := DigitsValue(ds);
      Some(if negative then -v else v)
  }

  lemma {:induction false} DigitsValueOfNat(n: nat)
    ensures DigitsValue(NatToString(n)) == n
  {
    if n >= 10 {
      DigitsValueOfNat(n / 10);
      var s := NatToString(n);
      assert s[..|s| - 1] == NatToString(n / 10);
    }
  }

  lemma {:induction false} LeadingDigitsOfDigits(ds: string, rest: string)
    requires AllDigits(ds)
    requires rest == [] || !IsDigit(rest[0])
    ensures LeadingDigits(ds + rest) == ds
    decreases |ds|
  {
    if ds != [] {
      assert (ds + rest)[1..] == ds[1..] + rest;
      LeadingDigitsOfDigits(ds[1..], rest);
    }
  }

  lemma {:induction false} DigitsValueLeadingZeros(z: nat, ds: string)
    requires AllDigits(ds)
    ensures AllDigits(Repeat('0', z) + ds)
    ensures DigitsValue(Repeat('0', z) + ds) == DigitsValue(ds)
    decreases |ds|
  {
    var s := Repeat('0', z) + ds;
    if ds == [] {
      assert s == Repeat('0', z);
      ZerosValue(z);
    } else {
      var init := ds[..|ds| - 1];
      assert s[..|s| - 1] == Repeat('0', z) + init;
      DigitsValueLeadingZeros(z, init);
    }
  }

  lemma {:induction false} ZerosValue(z: nat)
    ensures DigitsValue(Repeat('0', z)) == 0
  {
    if z > 0 {
      assert Repeat('0', z)[..z - 1] == Repeat('0', z - 1);
      ZerosValue(z - 1);
    }
  }

  /** `parseInt(String(n))` gives `n` back, also when more text follows that does not
   *  start with a digit. */
  lemma ParseIntOfNat(n: nat, rest: string)
    requires rest == [] || !IsDigit(rest[0])
    ensures ParseInt(NatToString(n) + rest) == Some(n)
  {
    var s := NatToString(n);
    assert (s + rest)[0] == s[0];
    assert TrimStart(s + rest) == s + rest;
    LeadingDigitsOfDigits(s, rest);
    DigitsValueOfNat(n);
  }

  /** `parseInt(String(i))` gives `i` back for every integer. */
  lemma ParseIntOfInt(i: int)
    ensures ParseInt(IntToString(i)) == Some(i)
  {
    ParseIntOfIntThen(i, []);
    assert IntToString(i) + [] == IntToString(i);
  }

  /** `parseInt` reads `String(i)` back also when more text follows that does not
   *  start with a digit. */
  lemma ParseIntOfIntThen(i: int, rest: string)
    requires rest == [] || !IsDigit(rest[0])
    ensures ParseInt(IntToString(i) + rest) == Some(i)
  {
    if i >= 0 {
      ParseIntOfNat(i, rest);
    } else {
      var s := NatToString(-i);
      var t := "-" + s + rest;
      assert t[0] == '-';
      assert TrimStart(t) == t;
      assert t[1..] == s + rest;
      LeadingDigitsOfDigits(s, rest);
      DigitsValueOfNat(-i);
    }
  }

  /** A number written after a prefix and before text that does not start with a digit
   *  is read back from just after the prefix. */
  lemma PrefixedNumber(prefix: string, i: int, rest: string)
    requires rest == [] || !IsDigit(rest[0])
    ensures var e := prefix + IntToString(i) + rest;
      StartsWith(e, prefix) && ParseInt(e[|prefix|..]) == Some(i)
  {
    var e := prefix + IntToString(i) + rest;
    assert e[|prefix|..] == IntToString(i) + rest;
    ParseIntOfIntThen(i, rest);
  }

  /** Left padding with zeros does not change the number `parseInt` reads. */
  lemma ParseIntOfZeroPadded(n: nat, width: nat)
    ensures ParseInt(PadStart(NatToString(n), width, '0')) == Some(n)
  {
    var s := NatToString(n);
    if |s| >= width {
      ParseIntOfNat(n, []);
      assert s + [] == s;
    } else {
      var z := width - |s|;
      var p := Repeat('0', z) + s;
      DigitsValueLeadingZeros(z, s);
      assert p[0] == '0';
      assert TrimStart(p) == p;
      LeadingDigitsOfDigits(p, []);
      assert p + [] == p;
      DigitsValueOfNat(n);
    }
  }

  /** A number left-padded with zeros is a digit string at least as long as the width. */
  lemma PaddedDigits(n: nat, width: nat)
    ensures AllDigits(PadStart(NatToString(n), width, '0'))
    ensures |PadStart(NatToString(n), width, '0')| >= width
  {
  }
}
