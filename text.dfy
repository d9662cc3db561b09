/**
 * The Python string primitives the pipeline relies on, stated over `seq<char>`:
 * `str.isspace`, `strip`, `split()` and `split(c)`, `sep.join`, `replace(pat, "")`,
 * `str.find` and decimal formatting of integers (`str(n)`, `f"{n:03d}"`).
 */
module Text {
  import opened Wrappers

  /** Python's `str.isspace()` for one code point. */
  predicate IsSpace(c: char) {
    ('\U{9}' <= c <= '\U{D}') || ('\U{1C}' <= c <= '\U{20}') || c == '\U{85}' || c == '\U{A0}'
    || c == '\U{1680}' || ('\U{2000}' <= c <= '\U{200A}') || c == '\U{2028}' || c == '\U{2029}'
    || c == '\U{202F}' || c == '\U{205F}' || c == '\U{3000}'
  }

  predicate NoSpace(s: string) {
    forall i :: 0 <= i < |s| ==> !IsSpace(s[i])
  }

  // ---------------------------------------------------------------- strip

  /** Drops the longest all-whitespace prefix. */
  function TrimLeft(s: string): string {
    if s != [] && IsSpace(s[0]) then TrimLeft(s[1..]) else s
  }

  /** Drops the longest all-whitespace suffix. */
  function TrimRight(s: string): string {
    if s != [] && IsSpace(s[|s| - 1]) then TrimRight(s[..|s| - 1]) else s
  }

  /** `TrimLeft` removes a prefix made only of whitespace, and the rest does not start with whitespace. */
  lemma {:induction false} TrimLeftShape(s: string)
    ensures var r := TrimLeft(s);
      |r| <= |s| && r == s[|s| - |r|..]
      && (forall i :: 0 <= i < |s| - |r| ==> IsSpace(s[i]))
      && (r == [] || !IsSpace(r[0]))
  {
    if s != [] && IsSpace(s[0]) {
      var u := s[1..];
      TrimLeftShape(u);
      var r := TrimLeft(u);
      assert TrimLeft(s) == r;
      assert u[|u| - |r|..] == s[|s| - |r|..];
      forall i | 0 <= i < |s| - |r| ensures IsSpace(s[i]) {
        if i > 0 {
          assert s[i] == u[i - 1];
        }
      }
    }
  }

  /** `TrimRight` removes a suffix made only of whitespace, and the rest does not end with whitespace. */
  lemma {:induction false} TrimRightShape(s: string)
    ensures var r := TrimRight(s);
      |r| <= |s| && r == s[..|r|]
      && (forall i :: |r| <= i < |s| ==> IsSpace(s[i]))
      && (r == [] || !IsSpace(r[|r| - 1]))
  {
    if s != [] && IsSpace(s[|s| - 1]) {
      var u := s[..|s| - 1];
      TrimRightShape(u);
      var r := TrimRight(u);
      assert TrimRight(s) == r;
      assert u[..|r|] == s[..|r|];
      forall i | |r| <= i < |s| ensures IsSpace(s[i]) {
        if i < |u| {
          assert s[i] == u[i];
        }
      }
    }
  }

  /** Python's `s.strip()`. */
  function Strip(s: string): string {
    TrimRight(TrimLeft(s))
  }

  /** `s` has no whitespace at either end. */
  predicate EdgeFree(s: string) {
    s == [] || (!IsSpace(s[0]) && !IsSpace(s[|s| - 1]))
  }

  /** A string without whitespace at either end is its own `strip`. */
  lemma StripFixed(s: string)
    requires EdgeFree(s)
    ensures Strip(s) == s
  {
  }

  lemma StripLeadingSpace(s: string)
    ensures Strip([' '] + s) == Strip(s)
  {
    assert ([' '] + s)[1..] == s;
  }

  // ---------------------------------------------------------------- split()

  /** The longest whitespace-free prefix of `s`. */
  function TakeWord(s: string): (w: string)
    ensures |w| <= |s| && w == s[..|w|] && NoSpace(w)
    ensures |w| < |s| ==> IsSpace(s[|w|])
  {
    if s == [] || IsSpace(s[0]) then [] else [s[0]] + TakeWord(s[1..])
  }

  /** Python's `s.split()` with no argument: the maximal whitespace-free runs, in order. */
  function SplitWhitespace(s: string): (ts: seq<string>)
    ensures forall k :: 0 <= k < |ts| ==> ts[k] != [] && NoSpace(ts[k])
    decreases |s|
  {
    if s == [] then []
    else if IsSpace(s[0]) then SplitWhitespace(s[1..])
    else
      var w := TakeWord(s);
      [w] + SplitWhitespace(s[|w|..])
  }

  function Concat(ts: seq<string>): string {
    if ts == [] then [] else ts[0] + Concat(ts[1..])
  }

  /** Appending one more piece appends its text: `"".join(ts + [t]) == "".join(ts) + t`. */
  lemma {:induction false} ConcatSnoc(ts: seq<string>, t: string)
    ensures Concat(ts + [t]) == Concat(ts) + t
  {
    if ts == [] {
      assert [] + [t] == [t];
    } else {
      assert (ts + [t])[1..] == ts[1..] + [t];
      ConcatSnoc(ts[1..], t);
    }
  }

  /** `s` with every whitespace code point deleted. */
  function RemoveSpaces(s: string): string {
    if s == [] then [] else (if IsSpace(s[0]) then [] else [s[0]]) + RemoveSpaces(s[1..])
  }

  lemma {:induction false} RemoveSpacesAppend(a: string, b: string)
    ensures RemoveSpaces(a + b) == RemoveSpaces(a) + RemoveSpaces(b)
  {
    if a != [] {
      assert (a + b)[1..] == a[1..] + b;
      RemoveSpacesAppend(a[1..], b);
    } else {
      assert a + b == b;
    }
  }

  lemma {:induction false} RemoveSpacesNoSpace(w: string)
    requires NoSpace(w)
    ensures RemoveSpaces(w) == w
  {
    if w != [] {
      RemoveSpacesNoSpace(w[1..]);
    }
  }

  /** Splitting loses only whitespace: the tokens, concatenated, are the non-whitespace text in order. */
  lemma {:induction false} SplitWhitespaceKeepsText(s: string)
    ensures Concat(SplitWhitespace(s)) == RemoveSpaces(s)
    decreases |s|
  {
    if s == [] {
    } else if IsSpace(s[0]) {
      SplitWhitespaceKeepsText(s[1..]);
    } else {
      var w := TakeWord(s);
      assert w != [];
      assert s == w + s[|w|..];
      SplitWhitespaceKeepsText(s[|w|..]);
      RemoveSpacesAppend(w, s[|w|..]);
      RemoveSpacesNoSpace(w);
      assert ([w] + SplitWhitespace(s[|w|..]))[1..] == SplitWhitespace(s[|w|..]);
    }
  }

  lemma {:induction false} TakeWordBoundary(t: string, x: string)
    requires NoSpace(t)
    requires x == [] || IsSpace(x[0])
    ensures TakeWord(t + x) == t
  {
    if t == [] {
      assert t + x == x;
    } else {
      assert (t + x)[1..] == t[1..] + x;
      TakeWordBoundary(t[1..], x);
    }
  }

  /** Python's `sep.join(parts)`. */
  function Join(parts: seq<string>, sep: string): string {
    if parts == [] then []
    else if |parts| == 1 then parts[0]
    else parts[0] + sep + Join(parts[1..], sep)
  }

  /** A character found neither in the parts nor in the separator is not in the joined string. */
  lemma {:induction false} JoinExcludes(parts: seq<string>, sep: string, c: char)
    requires c !in sep
    requires forall k :: 0 <= k < |parts| ==> c !in parts[k]
    ensures c !in Join(parts, sep)
  {
    if |parts| >= 2 {
      JoinExcludes(parts[1..], sep, c);
    }
  }

  /** Splitting undoes joining with single spaces: `" ".join(ts).split() == ts` for well-formed tokens. */
  lemma {:induction false} SplitWhitespaceJoin(ts: seq<string>)
    requires forall k :: 0 <= k < |ts| ==> ts[k] != [] && NoSpace(ts[k])
    ensures SplitWhitespace(Join(ts, " ")) == ts
  {
    if ts == [] {
    } else if |ts| == 1 {
      TakeWordBoundary(ts[0], []);
      assert ts[0] + [] == ts[0];
      assert ts[0][|ts[0]|..] == [];
    } else {
      var t, rest := ts[0], Join(ts[1..], " ");
      var s := t + " " + rest;
      assert s == t + ([' '] + rest);
      TakeWordBoundary(t, [' '] + rest);
      assert s[|t|..] == [' '] + rest;
      assert ([' '] + rest)[1..] == rest;
      SplitWhitespaceJoin(ts[1..]);
      assert ts == [t] + ts[1..];
    }
  }

  // ---------------------------------------------------------------- split(c)

  /** Python's `s.split(c)` for a one-character separator. */
  function SplitOn(s: string, c: char): (ps: seq<string>)
    ensures |ps| >= 1
    ensures forall k :: 0 <= k < |ps| ==> c !in ps[k]
  {
    if s == [] then [[]]
    else
      var rest := SplitOn(s[1..], c);
      if s[0] == c then [[]] + rest else [[s[0]] + rest[0]] + rest[1..]
  }

  /** Number of occurrences of `c` in `s`. */
  function Count(s: string, c: char): nat {
    if s == [] then 0 else (if s[0] == c then 1 else 0) + Count(s[1..], c)
  }

  /** `s.split(c)` has one more piece than `s` has separators. */
  lemma {:induction false} SplitOnCount(s: string, c: char)
    ensures |SplitOn(s, c)| == Count(s, c) + 1
  {
    if s != [] {
      SplitOnCount(s[1..], c);
    }
  }

  /** Joining the pieces with the separator gives the original string back. */
  lemma {:induction false} JoinSplitOn(s: string, c: char)
    ensures Join(SplitOn(s, c), [c]) == s
  {
    if s != [] {
      var rest := SplitOn(s[1..], c);
      JoinSplitOn(s[1..], c);
      if s[0] == c {
        assert ([[]] + rest)[1..] == rest;
      } else if |rest| == 1 {
      } else {
        var ps := [[s[0]] + rest[0]] + rest[1..];
        assert ps[1..] == rest[1..];
        assert Join(rest, [c]) == rest[0] + [c] + Join(rest[1..], [c]);
      }
    }
  }

  lemma {:induction false} SplitOnPiece(p: string, c: char, x: string)
    requires c !in p
    ensures SplitOn(p + [c] + x, c) == [p] + SplitOn(x, c)
  {
    if p == [] {
      assert p + [c] + x == [c] + x;
      assert ([c] + x)[1..] == x;
    } else {
      assert (p + [c] + x)[1..] == p[1..] + [c] + x;
      SplitOnPiece(p[1..], c, x);
      assert [p[0]] + p[1..] == p;
    }
  }

  lemma {:induction false} SplitOnLast(p: string, c: char)
    requires c !in p
    ensures SplitOn(p, c) == [p]
  {
    if p != [] {
      SplitOnLast(p[1..], c);
      assert [p[0]] + p[1..] == p;
    }
  }

  /** Splitting undoes joining when no piece contains the separator. */
  lemma {:induction false} SplitOnJoin(ps: seq<string>, c: char)
    requires |ps| >= 1
    requires forall k :: 0 <= k < |ps| ==> c !in ps[k]
    ensures SplitOn(Join(ps, [c]), c) == ps
  {
    if |ps| == 1 {
      SplitOnLast(ps[0], c);
    } else {
      SplitOnPiece(ps[0], c, Join(ps[1..], [c]));
      SplitOnJoin(ps[1..], c);
      assert ps == [ps[0]] + ps[1..];
    }
  }

  /** `[p.strip() for p in ps]`. */
  function StripAll(ps: seq<string>): seq<string> {
    seq(|ps|, k requires 0 <= k < |ps| => Strip(ps[k]))
  }

  lemma SplitOnLeadingSpace(x: string)
    ensures var tail := SplitOn(x, ',');
      SplitOn([' '] + x, ',') == [[' '] + tail[0]] + tail[1..]
  {
    assert ([' '] + x)[1..] == x;
  }

  lemma JoinCommaCons(ps: seq<string>)
    requires |ps| >= 2
    ensures Join(ps, ", ") == ps[0] + [','] + ([' '] + Join(ps[1..], ", "))
  {
  }

  /** The pieces `", ".join(ps).split(",")` yields: every piece after the first gains a leading space. */
  function Spaced(ps: seq<string>): (r: seq<string>)
    requires |ps| >= 1
  {
    seq(|ps|, k requires 0 <= k < |ps| => if k == 0 then ps[0] else [' '] + ps[k])
  }

  lemma {:induction false} SplitOnCommaJoin(ps: seq<string>)
    requires |ps| >= 1
    requires forall k :: 0 <= k < |ps| ==> ',' !in ps[k]
    ensures SplitOn(Join(ps, ", "), ',') == Spaced(ps)
  {
    if |ps| == 1 {
      SplitOnLast(ps[0], ',');
    } else {
      var x := Join(ps[1..], ", ");
      var tail := SplitOn(x, ',');
      JoinCommaCons(ps);
      SplitOnPiece(ps[0], ',', [' '] + x);
      SplitOnLeadingSpace(x);
      SplitOnCommaJoin(ps[1..]);
      var l, r := [ps[0]] + ([[' '] + tail[0]] + tail[1..]), Spaced(ps);
      assert |l| == |r|;
      forall k | 0 <= k < |l| ensures l[k] == r[k] {
        if k >= 2 {
          assert l[k] == tail[k - 1];
        }
      }
    }
  }

  /**
   * `[p.strip() for p in ", ".join(ps).split(",")] == ps` when no piece holds a comma and
   * none has whitespace at its ends.
   */
  lemma SplitCommaJoin(ps: seq<string>)
    requires |ps| >= 1
    requires forall k :: 0 <= k < |ps| ==> ',' !in ps[k] && EdgeFree(ps[k])
    ensures StripAll(SplitOn(Join(ps, ", "), ',')) == ps
  {
    SplitOnCommaJoin(ps);
    var r := StripAll(Spaced(ps));
    forall k | 0 <= k < |ps| ensures r[k] == ps[k] {
      StripFixed(ps[k]);
      if k > 0 {
        StripLeadingSpace(ps[k]);
      }
    }
  }

  // ---------------------------------------------------------------- find / replace

  /** `pat` occurs in `s` starting at index `i`. */
  predicate OccursAt(s: string, pat: string, i: int) {
    0 <= i && i + |pat| <= |s| && s[i..i + |pat|] == pat
  }

  /** Python's `s.find(pat, from)`: the first occurrence of `pat` at or after `from`. */
  function IndexFrom(s: string, pat: string, from: nat): (r: Option<nat>)
    ensures r.Some? ==> from <= r.value && OccursAt(s, pat, r.value)
    ensures r.Some? ==> forall i :: from <= i < r.value ==> !OccursAt(s, pat, i)
    ensures r.None? ==> forall i :: from <= i ==> !OccursAt(s, pat, i)
    decreases |s| - from
  {
    if from + |pat| > |s| then None
    else if s[from..from + |pat|] == pat then Some(from)
    else IndexFrom(s, pat, from + 1)
  }

  /** `s.find(pat, from)` is the first occurrence at or after `from`. */
  lemma IndexFromFirst(s: string, pat: string, from: nat, k: nat)
    requires from <= k && OccursAt(s, pat, k)
    requires forall i :: from <= i < k ==> !OccursAt(s, pat, i)
    ensures IndexFrom(s, pat, from) == Some(k)
  {
  }

  /**
   * The first occurrence of `pat` in `a + pat + rest` is right after `a` when no occurrence
   * starts inside `a`, not even one running on into the `pat` that follows it.
   */
  lemma IndexAfterPrefix(a: string, pat: string, rest: string)
    requires forall i :: 0 <= i < |a| ==> !OccursAt(a + pat, pat, i)
    ensures IndexFrom(a + pat + rest, pat, 0) == Some(|a|)
  {
    var s := a + pat + rest;
    assert s[|a|..|a| + |pat|] == pat;
    forall i | 0 <= i < |a| ensures !OccursAt(s, pat, i) {
      assert !OccursAt(a + pat, pat, i);
      assert s[i..i + |pat|] == (a + pat)[i..i + |pat|];
    }
    IndexFromFirst(s, pat, 0, |a|);
  }

  /**
   * When `pre` starts nowhere inside `a` in `a + pre`, neither does any longer pattern
   * `pre + post` in `a + (pre + post)`.
   */
  lemma NoOccurrenceExtends(a: string, pre: string, post: string)
    requires forall i :: 0 <= i < |a| ==> !OccursAt(a + pre, pre, i)
    ensures forall i :: 0 <= i < |a| ==> !OccursAt(a + (pre + post), pre + post, i)
  {
    var pat := pre + post;
    var s := a + pat;
    assert pat[..|pre|] == pre;
    forall i | 0 <= i < |a| ensures !OccursAt(s, pat, i) {
      assert !OccursAt(a + pre, pre, i);
      assert s[i..i + |pre|] == (a + pre)[i..i + |pre|];
      if i + |pat| <= |s| {
        assert s[i..i + |pat|][..|pre|] == s[i..i + |pre|];
      }
    }
  }

  /**
   * Searching `pre + body + pat` from `from`, the length of `pre`, finds `pat` at `at`, right
   * after `body`, when `body` lacks `pat`'s first character.
   */
  lemma IndexAfterBody(pre: string, body: string, pat: string, from: nat, at: nat)
    requires pat != [] && pat[0] !in body && from == |pre| && at == |pre| + |body|
    ensures IndexFrom(pre + body + pat, pat, from) == Some(at)
  {
    var s := pre + body + pat;
    var c := |pre| + |body|;
    assert s[c..c + |pat|] == pat;
    forall j | |pre| <= j < c ensures !OccursAt(s, pat, j) {
      assert s[j] == body[j - |pre|];
    }
    IndexFromFirst(s, pat, |pre|, c);
  }

  /** Python's `s.replace(pat, "")` for a non-empty `pat`: non-overlapping occurrences, left to right, are removed. */
  function RemoveAll(s: string, pat: string): (r: string)
    requires pat != []
    ensures |r| <= |s|
    decreases |s|
  {
    if |s| < |pat| then s
    else if s[..|pat|] == pat then RemoveAll(s[|pat|..], pat)
    else [s[0]] + RemoveAll(s[1..], pat)
  }

  /**
   * Removing a pattern that is the suffix of `a + pat` leaves `a` when no occurrence of the
   * pattern starts inside `a`.
   */
  lemma {:induction false} RemoveAllTrailing(a: string, pat: string)
    requires pat != []
    requires forall i :: 0 <= i < |a| ==> !OccursAt(a + pat, pat, i)
    ensures RemoveAll(a + pat, pat) == a
  {
    if a == [] {
      assert a + pat == pat;
      assert pat[|pat|..] == [];
    } else {
      assert !OccursAt(a + pat, pat, 0);
      assert (a + pat)[1..] == a[1..] + pat;
      forall i | 0 <= i < |a[1..]| ensures !OccursAt(a[1..] + pat, pat, i) {
        assert !OccursAt(a + pat, pat, i + 1);
        assert (a[1..] + pat)[i..i + |pat|] == (a + pat)[i + 1..i + 1 + |pat|];
      }
      RemoveAllTrailing(a[1..], pat);
      assert [a[0]] + a[1..] == a;
    }
  }

  /** A string in which `pat` does not occur is left as it is. */
  lemma {:induction false} RemoveAllAbsent(s: string, pat: string)
    requires pat != []
    requires forall i :: 0 <= i ==> !OccursAt(s, pat, i)
    ensures RemoveAll(s, pat) == s
    decreases |s|
  {
    if |s| >= |pat| {
      assert !OccursAt(s, pat, 0);
      forall i | 0 <= i
        ensures !OccursAt(s[1..], pat, i)
      {
        assert !OccursAt(s, pat, i + 1);
      }
      RemoveAllAbsent(s[1..], pat);
      assert [s[0]] + s[1..] == s;
    }
  }

  // ---------------------------------------------------------------- numbers

  predicate IsDigit(c: char) {
    '0' <= c <= '9'
  }

  predicate AllDigits(s: string) {
    forall k :: 0 <= k < |s| ==> IsDigit(s[k])
  }

  function DigitChar(d: nat): (c: char)
    requires d < 10
    ensures IsDigit(c) && c as int - '0' as int == d
  {
    ('0' as int + d) as char
  }

  /** Python's `str(n)` for a natural number: decimal, no leading zeros. */
  function NatToString(n: nat): (s: string)
    ensures |s| >= 1 && AllDigits(s)
    decreases n
  {
    if n < 10 then [DigitChar(n)] else NatToString(n / 10) + [DigitChar(n % 10)]
  }

  /** Python's `str(i)` for any integer. */
  function IntToString(i: int): string {
    if i < 0 then "-" + NatToString(-i) else NatToString(i)
  }

  /** The number a string of decimal digits denotes (leading zeros allowed). */
  function DigitsValue(s: string): nat
    requires AllDigits(s)
  {
    if s == [] then 0 else 10 * DigitsValue(s[..|s| - 1]) + (s[|s| - 1] as int - '0' as int)
  }

  /** Reading back the decimal rendering gives the number. */
  lemma {:induction false} NatToStringValue(n: nat)
    ensures DigitsValue(NatToString(n)) == n
    decreases n
  {
    if n >= 10 {
      var s := NatToString(n);
      NatToStringValue(n / 10);
      assert s[..|s| - 1] == NatToString(n / 10);
    }
  }

  lemma NatToStringInjective(m: nat, n: nat)
    requires NatToString(m) == NatToString(n)
    ensures m == n
  {
    NatToStringValue(m);
    NatToStringValue(n);
  }

  function Zeros(k: nat): (z: string)
    ensures |z| == k && AllDigits(z)
  {
    seq(k, _ => '0')
  }

  /** Python's `f"{n:03d}"` for a natural number: at least three digits, zero-padded on the left. */
  function Pad3(n: nat): (s: string)
    ensures |s| >= 3 && AllDigits(s)
  {
    var d := NatToString(n);
    if |d| >= 3 then d else Zeros(3 - |d|) + d
  }

  lemma {:induction false} ZerosValue(k: nat)
    ensures DigitsValue(Zeros(k)) == 0
  {
    if k > 0 {
      assert Zeros(k)[..k - 1] == Zeros(k - 1);
      ZerosValue(k - 1);
    }
  }

  lemma {:induction false} LeadingZerosValue(k: nat, d: string)
    requires AllDigits(d)
    ensures DigitsValue(Zeros(k) + d) == DigitsValue(d)
  {
    if d == [] {
      assert Zeros(k) + d == Zeros(k);
      ZerosValue(k);
    } else {
      var s := Zeros(k) + d;
      assert s[..|s| - 1] == Zeros(k) + d[..|d| - 1];
      LeadingZerosValue(k, d[..|d| - 1]);
    }
  }

  /** Zero padding loses nothing: the padded rendering reads back as the number. */
  lemma Pad3Value(n: nat)
    ensures DigitsValue(Pad3(n)) == n
  {
    NatToStringValue(n);
    var d := NatToString(n);
    if |d| < 3 {
      LeadingZerosValue(3 - |d|, d);
    }
  }

  lemma Pad3Injective(m: nat, n: nat)
    requires Pad3(m) == Pad3(n)
    ensures m == n
  {
    Pad3Value(m);
    Pad3Value(n);
  }

  /** Equal strings with a common prefix have equal remainders. */
  lemma SuffixCancel(a: string, x: string, y: string)
    requires a + x == a + y
    ensures x == y
  {
    assert x == (a + x)[|a|..];
    assert y == (a + y)[|a|..];
  }
}
