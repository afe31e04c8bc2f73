/**
 * The parts of Python's `str` that the modelled code relies on: `lower()`, `strip()`,
 * `lstrip(chars)`, `split(sep)`, `sep.join(parts)`, `replace`, the `in` substring test,
 * `str(n)` and `int(s)` for decimal integers.
 *
 * Lower-casing is ASCII-only: Python's `lower()` leaves Hangul unchanged, and the
 * keywords the system compares against are ASCII or Hangul.
 */
module Text {
  import opened Wrappers

  /** A non-empty sequence is its prefix followed by its last element. */
  lemma LastSplit<T>(s: seq<T>)
    requires s != []
    ensures s == s[..|s| - 1] + [s[|s| - 1]]
  {
  }

  /** A non-empty sequence is its first element followed by the rest. */
  lemma HeadSplit<T>(s: seq<T>)
    requires s != []
    ensures s == [s[0]] + s[1..]
  {
  }

  /** Concatenation is associative and has the empty sequence as its unit. */
  lemma DropPrefix<T>(a: seq<T>, b: seq<T>) ensures (a + b)[|a|..] == b && (a + b)[..|a|] == a { }
  lemma PieceSlices<T>(a: seq<T>, b: seq<T>, c: seq<T>, d: seq<T>, e: seq<T>)
    ensures |a + b + c + d + e| == |a| + |b| + |c| + |d| + |e|
    ensures (a + b + c + d + e)[|a|..|a| + |b|] == b
    ensures (a + b + c + d + e)[|a| + |b|..|a| + |b| + |c|] == c
    ensures (a + b + c + d + e)[|a| + |b| + |c|..|a| + |b| + |c| + |d|] == d
    ensures (a + b + c + d + e)[|a| + |b| + |c| + |d|..] == e
  {
    var s := a + b + c + d + e;
    assert s[|a|..|a| + |b|] == b;
    assert s[|a| + |b|..|a| + |b| + |c|] == c;
    assert s[|a| + |b| + |c|..|a| + |b| + |c| + |d|] == d;
  }
  lemma ConcatFacts<T>(a: seq<T>, b: seq<T>, c: seq<T>)
    ensures a + (b + c) == a + b + c
    ensures [] + a == a && a + [] == a
  {
  }

  // ---------------------------------------------------------------------------
  // Characters
  // ---------------------------------------------------------------------------

  /** The characters for which Python's `str.isspace()` holds (also what `\s` matches in a `str` regex). */
  predicate IsSpace(c: char) {
    c == ' ' || ('\t' <= c <= '\r') || ('\U{1C}' <= c <= '\U{1F}') ||
    c == '\U{85}' || c == '\U{A0}' || c == '\U{1680}' || ('\U{2000}' <= c <= '\U{200A}') ||
    c == '\U{2028}' || c == '\U{2029}' || c == '\U{202F}' || c == '\U{205F}' || c == '\U{3000}'
  }

  /** An ASCII decimal digit. */
  predicate IsDigit(c: char) {
    '0' <= c <= '9'
  }

  function LowerChar(c: char): char {
    if 'A' <= c <= 'Z' then (c as int + 32) as char else c
  }

  /** `s.lower()`, ASCII letters only. */
  function Lower(s: string): string {
    seq(|s|, i requires 0 <= i < |s| => LowerChar(s[i]))
  }

  // ---------------------------------------------------------------------------
  // Substrings
  // ---------------------------------------------------------------------------

  /** `t` occurs in `s` at index `i`. */
  predicate OccursAt(s: string, t: string, i: int) {
    0 <= i && i + |t| <= |s| && s[i..i + |t|] == t
  }

  /** Python's `t in s` on strings. */
  predicate Contains(s: string, t: string) {
    exists i | 0 <= i <= |s| - |t| :: OccursAt(s, t, i)
  }

  /** `any(p in text for p in pats)`. */
  function AnyContains(text: string, pats: seq<string>): (r: bool)
    ensures r <==> exists i :: 0 <= i < |pats| && Contains(text, pats[i])
    ensures r <==> exists p :: p in pats && Contains(text, p)
  {
    if pats == [] then false
    else Contains(text, pats[0]) || AnyContains(text, pats[1..])
  }

  /** `[p.lower() for p in pats]`. */
  function LowerAll(pats: seq<string>): (r: seq<string>)
    ensures |r| == |pats|
    ensures forall i :: 0 <= i < |pats| ==> r[i] == Lower(pats[i])
  {
    if pats == [] then [] else [Lower(pats[0])] + LowerAll(pats[1..])
  }

  lemma ContainsInLeft(a: string, b: string, t: string)
    requires Contains(a, t)
    ensures Contains(a + b, t)
  {
    var i :| 0 <= i <= |a| - |t| && OccursAt(a, t, i);
    assert (a + b)[i..i + |t|] == a[i..i + |t|];
    assert OccursAt(a + b, t, i);
  }

  lemma ContainsInRight(a: string, b: string, t: string)
    requires Contains(b, t)
    ensures Contains(a + b, t)
  {
    var i :| 0 <= i <= |b| - |t| && OccursAt(b, t, i);
    assert (a + b)[|a| + i..|a| + i + |t|] == b[i..i + |t|];
    assert OccursAt(a + b, t, |a| + i);
  }

  /** A non-empty pattern whose first character does not occur in `s` is not a substring of `s`. */
  lemma NotContainsByFirstChar(s: string, t: string)
    requires |t| > 0 && forall k :: 0 <= k < |s| ==> s[k] != t[0]
    ensures !Contains(s, t)
  {
    forall i | 0 <= i <= |s| - |t|
      ensures !OccursAt(s, t, i)
    {
      assert s[i..i + |t|][0] == s[i];
    }
  }

  // ---------------------------------------------------------------------------
  // Trimming
  // ---------------------------------------------------------------------------

  /** Drops the longest prefix of `s` whose characters all satisfy `drop` (`lstrip`). */
  function TrimLeft(s: string, drop: char -> bool): (r: string)
    ensures |r| <= |s| && r == s[|s| - |r|..]
    ensures forall k :: 0 <= k < |s| - |r| ==> drop(s[k])
    ensures r != [] ==> !drop(r[0])
  {
    if s != [] && drop(s[0]) then TrimLeft(s[1..], drop) else s
  }

  /** Drops the longest suffix of `s` whose characters all satisfy `drop` (`rstrip`). */
  function TrimRight(s: string, drop: char -> bool): (r: string)
    ensures |r| <= |s| && r == s[..|r|]
    ensures forall k :: |r| <= k < |s| ==> drop(s[k])
    ensures r != [] ==> !drop(r[|r| - 1])
  {
    if s != [] && drop(s[|s| - 1]) then TrimRight(s[..|s| - 1], drop) else s
  }

  /** `s.strip()`: leading and trailing whitespace removed (`TrimLeft` and `TrimRight` say what goes). */
  function Strip(s: string): (r: string)
    ensures |r| <= |s|
    ensures r != [] ==> !IsSpace(r[0]) && !IsSpace(r[|r| - 1])
  {
    TrimRight(TrimLeft(s, IsSpace), IsSpace)
  }

  /** Where `Strip(s)` starts in `s`. */
  function StripStart(s: string): nat {
    |s| - |TrimLeft(s, IsSpace)|
  }

  /** What `strip` drops at the front is whitespace. */
  lemma StripDropsLeadingSpace(s: string)
    ensures forall k :: 0 <= k < StripStart(s) ==> IsSpace(s[k])
  {
    var l := TrimLeft(s, IsSpace);
    assert StripStart(s) == |s| - |l|;
  }

  /** A property of a suffix's tail from position `n` holds of the whole from `a + n`. */
  lemma SuffixTail<T>(s: seq<T>, a: nat, n: nat, p: T -> bool)
    requires a <= |s| && n <= |s| - a
    requires forall k :: n <= k < |s| - a ==> p(s[a..][k])
    ensures forall k :: a + n <= k < |s| ==> p(s[k])
  {
    forall k | a + n <= k < |s|
      ensures p(s[k])
    {
      assert s[a..][k - a] == s[k];
    }
  }

  /** What `strip` drops at the back is whitespace. */
  lemma StripDropsTrailingSpace(s: string)
    ensures StripStart(s) + |Strip(s)| <= |s|
    ensures forall k :: StripStart(s) + |Strip(s)| <= k < |s| ==> IsSpace(s[k])
  {
    var l := TrimLeft(s, IsSpace);
    var r := TrimRight(l, IsSpace);
    var a := StripStart(s);
    assert l == s[a..] && r == Strip(s);
    SuffixTail(s, a, |r|, IsSpace);
  }

  /**
    * `Strip(s)` is the slice of `s` that starts at `StripStart(s)`, and everything outside it is
    * whitespace: with `Strip`'s own "no space at either end", this is the one slice `strip` keeps.
    */
  lemma StripIsSlice(s: string)
    ensures StripStart(s) + |Strip(s)| <= |s|
    ensures Strip(s) == s[StripStart(s)..StripStart(s) + |Strip(s)|]
    ensures forall k :: 0 <= k < StripStart(s) ==> IsSpace(s[k])
    ensures forall k :: StripStart(s) + |Strip(s)| <= k < |s| ==> IsSpace(s[k])
  {
    var l := TrimLeft(s, IsSpace);
    assert l == s[StripStart(s)..];
    StripDropsLeadingSpace(s);
    StripDropsTrailingSpace(s);
  }

  /** A substring of a slice is a substring of the whole. */
  lemma ContainsOfSlice(s: string, a: nat, b: nat, t: string)
    requires a <= b <= |s| && Contains(s[a..b], t)
    ensures Contains(s, t)
  {
    var i :| 0 <= i <= (b - a) - |t| && OccursAt(s[a..b], t, i);
    forall k | 0 <= k < |t|
      ensures s[a + i + k] == t[k]
    {
      assert s[a..b][i..i + |t|][k] == t[k];
    }
    assert s[a + i..a + i + |t|] == t;
    assert OccursAt(s, t, a + i);
  }

  /** Lower-casing changes nothing in a string without ASCII capitals. */
  lemma LowerIdentity(s: string)
    requires forall k :: 0 <= k < |s| ==> !('A' <= s[k] <= 'Z')
    ensures Lower(s) == s
  {
  }

  /** A pattern without ASCII lower-case letters occurs in `Lower(s)` only where it occurs in `s`. */
  lemma ContainsOfLower(s: string, t: string)
    requires forall k :: 0 <= k < |t| ==> !('a' <= t[k] <= 'z')
    requires Contains(Lower(s), t)
    ensures Contains(s, t)
  {
    var i :| 0 <= i <= |s| - |t| && OccursAt(Lower(s), t, i);
    forall k | 0 <= k < |t|
      ensures s[i + k] == t[k]
    {
      assert Lower(s)[i..i + |t|][k] == t[k];
    }
    assert s[i..i + |t|] == t;
    assert OccursAt(s, t, i);
  }

  // ---------------------------------------------------------------------------
  // Splitting and joining
  // ---------------------------------------------------------------------------

  /** The number of occurrences of `c` in `s`. */
  function CountChar(s: string, c: char): nat {
    multiset(s)[c]
  }

  /** `sep.join(parts)`. */
  function Join(parts: seq<string>, sep: string): string {
    if parts == [] then ""
    else if |parts| == 1 then parts[0]
    else parts[0] + sep + Join(parts[1..], sep)
  }

  /** Joining two non-empty lists puts one separator between their joins. */
  lemma {:induction false} JoinAppend(a: seq<string>, b: seq<string>, sep: string)
    requires a != [] && b != []
    ensures Join(a + b, sep) == Join(a, sep) + sep + Join(b, sep)
  {
    if |a| == 1 {
      assert a + b == [a[0]] + b;
    } else {
      assert (a + b)[1..] == a[1..] + b;
      JoinAppend(a[1..], b, sep);
    }
  }

  /** Appending one part adds a separator and that part. */
  lemma JoinSnoc(a: seq<string>, x: string, sep: string)
    requires a != []
    ensures Join(a + [x], sep) == Join(a, sep) + sep + x
  {
    JoinAppend(a, [x], sep);
  }

  /** Joining `a + b + c` with `a` and `c` non-empty: a middle part `b` adds its own separator only when present. */
  lemma JoinAround(a: seq<string>, b: seq<string>, c: seq<string>, sep: string)
    requires a != [] && c != []
    ensures Join(a + b + c, sep) == Join(a, sep) + (if b == [] then "" else sep + Join(b, sep)) + sep + Join(c, sep)
  {
    JoinAppend(a + b, c, sep);
    if b == [] {
      ConcatFacts(a, [], []);
      ConcatFacts(Join(a, sep), [], []);
    } else {
      JoinAppend(a, b, sep);
      ConcatFacts(Join(a, sep), sep, Join(b, sep));
    }
  }

  /** Appending at most one part adds a separator and that part, if there is one. */
  lemma JoinSnocOptional(a: seq<string>, opt: seq<string>, sep: string)
    requires a != [] && |opt| <= 1
    ensures Join(a + opt, sep) == Join(a, sep) + (if opt == [] then "" else sep + opt[0])
  {
    if opt == [] {
      assert a + opt == a;
    } else {
      assert opt == [opt[0]];
      JoinSnoc(a, opt[0], sep);
    }
  }

  /** `s.split(c)`: the pieces between the occurrences of `c`, empty pieces included. */
  function Split(s: string, c: char): (r: seq<string>)
    ensures |r| == CountChar(s, c) + 1
    ensures forall k :: 0 <= k < |r| ==> c !in r[k]
    ensures Join(r, [c]) == s
    decreases |s|
  {
    if c !in s then [s]
    else
      var k := FirstIndex(s, c);
      assert s == s[..k] + [c] + s[k + 1..];
      var rest := Split(s[k + 1..], c);
      assert multiset(s) == multiset(s[..k]) + multiset{c} + multiset(s[k + 1..]) by {
        calc {
          multiset(s);
          multiset(s[..k] + [c] + s[k + 1..]);
          multiset(s[..k]) + multiset{c} + multiset(s[k + 1..]);
        }
      }
      [s[..k]] + rest
  }

  /** The index of the first `c` in `s`. */
  function FirstIndex(s: string, c: char): (k: nat)
    requires c in s
    ensures k < |s| && s[k] == c && c !in s[..k]
  {
    if s[0] == c then 0 else 1 + FirstIndex(s[1..], c)
  }

  /** `[x for x in xs if x]`: the non-empty strings of `xs`, in order. */
  function NonEmpty(xs: seq<string>): (r: seq<string>)
    ensures |r| <= |xs|
    ensures forall k :: 0 <= k < |r| ==> r[k] != ""
    ensures forall x :: x in r <==> x in xs && x != ""
  {
    if xs == [] then []
    else if xs[0] == "" then NonEmpty(xs[1..])
    else [xs[0]] + NonEmpty(xs[1..])
  }

  /** `[f(x) for x in xs]`. */
  function MapSeq<A, B>(f: A -> B, xs: seq<A>): (r: seq<B>)
    ensures |r| == |xs| && forall k :: 0 <= k < |xs| ==> r[k] == f(xs[k])
  {
    seq(|xs|, k requires 0 <= k < |xs| => f(xs[k]))
  }

  /** Mapping works element by element, so it distributes over concatenation. */
  lemma MapSeqAppend<A, B>(f: A -> B, xs: seq<A>, ys: seq<A>)
    ensures MapSeq(f, xs + ys) == MapSeq(f, xs) + MapSeq(f, ys)
  {
    var l, r := MapSeq(f, xs + ys), MapSeq(f, xs) + MapSeq(f, ys);
    forall k | 0 <= k < |l|
      ensures l[k] == r[k]
    {
      if k < |xs| {
        assert (xs + ys)[k] == xs[k];
      } else {
        assert (xs + ys)[k] == ys[k - |xs|];
      }
    }
  }

  /** The filter works element by element: it keeps order and duplicates across a concatenation. */
  lemma {:induction false} NonEmptyAppend(xs: seq<string>, ys: seq<string>)
    ensures NonEmpty(xs + ys) == NonEmpty(xs) + NonEmpty(ys)
  {
    if xs == [] {
      ConcatFacts(ys, [], []);
      ConcatFacts(NonEmpty(ys), [], []);
    } else {
      assert (xs + ys)[0] == xs[0] && (xs + ys)[1..] == xs[1..] + ys;
      NonEmptyAppend(xs[1..], ys);
      ConcatFacts([xs[0]], NonEmpty(xs[1..]), NonEmpty(ys));
    }
  }

  /** On one string the filter keeps it exactly when it is non-empty. */
  lemma NonEmptySingle(x: string)
    ensures x == "" ==> NonEmpty([x]) == []
    ensures x != "" ==> NonEmpty([x]) == [x]
  {
    assert [x][1..] == [];
  }

  /** `s.replace(c, rep)` for a one-character pattern: every `c` is replaced by `rep`. */
  function ReplaceChar(s: string, c: char, rep: string): (r: string)
    ensures c !in rep ==> c !in r
    ensures c !in s ==> r == s
    ensures |rep| == 1 ==>
              |r| == |s| && forall k :: 0 <= k < |s| ==> r[k] == if s[k] == c then rep[0] else s[k]
  {
    if s == [] then ""
    else
      (if s[0] == c then rep else [s[0]]) + ReplaceChar(s[1..], c, rep)
  }

  /** Replacing works character by character, so it distributes over concatenation. */
  lemma {:induction false} ReplaceCharAppend(a: string, b: string, c: char, rep: string)
    ensures ReplaceChar(a + b, c, rep) == ReplaceChar(a, c, rep) + ReplaceChar(b, c, rep)
    decreases |a|
  {
    if a == [] {
      assert a + b == b;
    } else {
      assert (a + b)[0] == a[0] && (a + b)[1..] == a[1..] + b;
      ReplaceCharAppend(a[1..], b, c, rep);
      ConcatFacts(if a[0] == c then rep else [a[0]], ReplaceChar(a[1..], c, rep), ReplaceChar(b, c, rep));
    }
  }

  /** A single character becomes `rep` when it is `c` and stays as it is otherwise. */
  lemma ReplaceCharSingle(x: char, c: char, rep: string)
    ensures x == c ==> ReplaceChar([x], c, rep) == rep
    ensures x != c ==> ReplaceChar([x], c, rep) == [x]
  {
    assert [x][1..] == [];
  }

  // ---------------------------------------------------------------------------
  // Decimal integers: `str(n)` and `int(s)`
  // ---------------------------------------------------------------------------

  function DigitChar(d: nat): (c: char)
    requires d < 10
    ensures IsDigit(c)
  {
    ('0' as int + d) as char
  }

  function DigitValue(c: char): (d: nat)
    requires IsDigit(c)
    ensures d < 10 && DigitChar(d) == c
  {
    c as int - '0' as int
  }

  /** The value of a string of ASCII digits, most significant first (leading zeros allowed). */
  function DigitsValue(d: string): nat
    requires forall k :: 0 <= k < |d| ==> IsDigit(d[k])
  {
    if d == [] then 0 else DigitsValue(d[..|d| - 1]) * 10 + DigitValue(d[|d| - 1])
  }

  /** `str(n)` for a non-negative integer. */
  function NatToString(n: nat): (s: string)
    ensures |s| > 0 && forall k :: 0 <= k < |s| ==> IsDigit(s[k])
    ensures DigitsValue(s) == n
    ensures n > 0 ==> s[0] != '0'
  {
    if n < 10 then [DigitChar(n)]
    else
      var s := NatToString(n / 10) + [DigitChar(n % 10)];
      assert s[..|s| - 1] == NatToString(n / 10);
      s
  }

  /** `str(i)` for any integer: a minus sign, then the digits of the magnitude. */
  function IntToString(i: int): (s: string)
    ensures |s| > 0
  {
    if i < 0 then "-" + NatToString(-i) else NatToString(i)
  }

  /**
   * The digit part that `int()` accepts: ASCII digits, with single underscores allowed
   * between two digits (PEP 515).
   */
  predicate ValidDigitGroups(d: string) {
    |d| > 0 && IsDigit(d[0]) && IsDigit(d[|d| - 1]) &&
    (forall k :: 0 <= k < |d| ==> IsDigit(d[k]) || d[k] == '_') &&
    (forall k :: 0 <= k < |d| - 1 ==> !(d[k] == '_' && d[k + 1] == '_'))
  }

  /** The digits of `d` with the underscores left out. */
  function DropUnderscores(d: string): (r: string)
    requires forall k :: 0 <= k < |d| ==> IsDigit(d[k]) || d[k] == '_'
    ensures forall k :: 0 <= k < |r| ==> IsDigit(r[k])
    ensures (forall k :: 0 <= k < |d| ==> IsDigit(d[k])) ==> r == d
  {
    if d == [] then ""
    else if d[0] == '_' then DropUnderscores(d[1..])
    else [d[0]] + DropUnderscores(d[1..])
  }

  /** Python's `int(s)` on a string: `None` where Python raises `ValueError`. */
  function ParseInt(s: string): Option<int> {
    ParseStripped(Strip(s))
  }

  /** `int()` on text with no surrounding whitespace: an optional sign, then the digit part. */
  function ParseStripped(t: string): Option<int> {
    if t != [] && (t[0] == '-' || t[0] == '+') then
      var v := ParseUnsigned(t[1..]);
      if v.Some? then Some(if t[0] == '-' then -v.value else v.value) else None
    else ParseUnsigned(t)
  }

  /** The digit part alone: its value, or `None` where `int()` raises. */
  function ParseUnsigned(d: string): Option<int> {
    if ValidDigitGroups(d) then Some(DigitsValue(DropUnderscores(d))) else None
  }

  /** `int(str(i)) == i`. */
  lemma ParseIntToString(i: int)
    ensures ParseInt(IntToString(i)) == Some(i)
  {
    if i < 0 {
      var d := NatToString(-i);
      DigitsAccepted(d);
      assert IsDigit(d[|d| - 1]);
      ParseIntNegative(d, DigitsValue(d));
    } else {
      ParseIntNatToString(i);
    }
  }

  /** `int(str(n)) == n` for a natural number. */
  lemma ParseIntNatToString(n: nat)
    ensures ParseInt(NatToString(n)) == Some(n as int)
  {
    var d := NatToString(n);
    DigitsAccepted(d);
    assert IsDigit(d[0]) && IsDigit(d[|d| - 1]);
    ParseIntUnsigned(d, DigitsValue(d));
  }

  /** `int()` reads an accepted digit part as its value. */
  lemma ParseIntUnsigned(d: string, v: int)
    requires |d| > 0 && IsDigit(d[0]) && IsDigit(d[|d| - 1]) && ParseUnsigned(d) == Some(v)
    ensures ParseInt(d) == Some(v)
  {
    ParseIntUnpadded(d);
  }

  /** `int()` reads a minus sign and an accepted digit part as the negated value. */
  lemma ParseIntNegative(d: string, v: int)
    requires |d| > 0 && IsDigit(d[|d| - 1]) && ParseUnsigned(d) == Some(v)
    ensures ParseInt("-" + d) == Some(-v)
  {
    var s := "-" + d;
    assert s[|s| - 1] == d[|d| - 1] && s[0] == '-';
    ParseIntUnpadded(s);
    ParseStrippedNegative(d, v);
  }

  /** `int()` of a text with no whitespace at either end parses the text as it is. */
  lemma ParseIntUnpadded(s: string)
    requires s != [] ==> !IsSpace(s[0]) && !IsSpace(s[|s| - 1])
    ensures ParseInt(s) == ParseStripped(s)
  {
    StripNoSpace(s);
  }

  /** A minus sign before an accepted digit part negates its value. */
  lemma ParseStrippedNegative(d: string, v: int)
    requires ParseUnsigned(d) == Some(v)
    ensures ParseStripped("-" + d) == Some(-v)
  {
    var s := "-" + d;
    assert s[0] == '-' && s[1..] == d;
  }

  /** A non-empty run of digits is a digit part `int()` accepts, with nothing to drop. */
  lemma DigitsAccepted(d: string)
    requires |d| > 0 && forall k :: 0 <= k < |d| ==> IsDigit(d[k])
    ensures ParseUnsigned(d) == Some(DigitsValue(d) as int)
  {
    assert ValidDigitGroups(d) && DropUnderscores(d) == d;
  }

  /** A string that starts and ends with a non-space character is its own `strip()`. */
  lemma StripNoSpace(s: string)
    requires s != [] ==> !IsSpace(s[0]) && !IsSpace(s[|s| - 1])
    ensures Strip(s) == s
  {
    var l := TrimLeft(s, IsSpace);
    if s != [] {
      assert l == s;
    }
  }

  // ---------------------------------------------------------------------------
  // Round trips and searching
  // ---------------------------------------------------------------------------

  /** Trimming a string that does not start with a dropped character changes nothing. */
  lemma TrimLeftNoop(s: string, drop: char -> bool)
    requires s != [] ==> !drop(s[0])
    ensures TrimLeft(s, drop) == s
  {
  }

  /** Every character of `Strip(s)` is a character of `s`. */
  lemma StripChars(s: string)
    ensures forall c :: c in Strip(s) ==> c in s
  {
    StripIsSlice(s);
  }

  /** `strip()` drops a leading space. */
  lemma StripLeadingSpace(x: string)
    ensures Strip(" " + x) == Strip(x)
  {
    assert (" " + x)[1..] == x;
  }

  /** A list without empty strings is its own non-empty filter. */
  lemma {:induction false} NonEmptyNoop(xs: seq<string>)
    requires forall k :: 0 <= k < |xs| ==> xs[k] != ""
    ensures NonEmpty(xs) == xs
  {
    if xs != [] {
      NonEmptyNoop(xs[1..]);
    }
  }

  /** Splitting a join at its one-character separator gives the parts back, if none contains it. */
  lemma {:induction false} SplitJoin(parts: seq<string>, c: char)
    requires parts != []
    requires forall k :: 0 <= k < |parts| ==> c !in parts[k]
    ensures Split(Join(parts, [c]), c) == parts
  {
    if |parts| > 1 {
      SplitStep(parts[0], Join(parts[1..], [c]), c);
      SplitJoin(parts[1..], c);
      HeadSplit(parts);
    }
  }

  /** Splitting cuts at the first separator: the text before it is the first part. */
  lemma SplitStep(a: string, b: string, c: char)
    requires c !in a
    ensures Split(a + [c] + b, c) == [a] + Split(b, c)
  {
    var s := a + [c] + b;
    assert s[|a|] == c;
    assert s[..|a|] == a && s[|a| + 1..] == b;
  }

  /** Splitting at a separator splits the text on either side of it independently. */
  lemma {:induction false} SplitAppend(a: string, b: string, c: char)
    ensures Split(a + [c] + b, c) == Split(a, c) + Split(b, c)
    decreases |a|
  {
    if c !in a {
      SplitStep(a, b, c);
      assert Split(a, c) == [a];
    } else {
      var k := FirstIndex(a, c);
      var front, back := a[..k], a[k + 1..];
      var rest := back + [c] + b;
      assert a == front + [c] + back;
      assert a + [c] + b == front + [c] + rest;
      SplitStep(front, rest, c);
      SplitAppend(back, b, c);
      SplitStep(front, back, c);
      ConcatFacts([front], Split(back, c), Split(b, c));
    }
  }

  /** The first index `j >= i` at which `t` occurs in `s`, as `s.find(t, i)` finds it. */
  function FindFrom(s: string, t: string, i: nat): (r: Option<nat>)
    ensures r.Some? ==> i <= r.value && OccursAt(s, t, r.value)
    decreases |s| - i
  {
    if i + |t| > |s| then None
    else if OccursAt(s, t, i) then Some(i)
    else FindFrom(s, t, i + 1)
  }

  /** `FindFrom` finds an occurrence at `j` when there is none between `i` and `j`. */
  lemma {:induction false} FindFromAt(s: string, t: string, i: nat, j: nat)
    requires i <= j && OccursAt(s, t, j)
    requires forall k :: i <= k < j ==> !OccursAt(s, t, k)
    ensures FindFrom(s, t, i) == Some(j)
    decreases j - i
  {
    if i < j {
      FindFromAt(s, t, i + 1, j);
    }
  }

  /** `FindFrom` finds nothing when there is no occurrence at or after `i`. */
  lemma {:induction false} FindFromNone(s: string, t: string, i: nat)
    requires forall k :: i <= k ==> !OccursAt(s, t, k)
    ensures FindFrom(s, t, i).None?
    decreases |s| - i
  {
    if i + |t| <= |s| {
      FindFromNone(s, t, i + 1);
    }
  }
}
