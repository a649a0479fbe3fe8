/**
 * The few Python `str` operations the backend relies on, over strings of
 * Unicode code points: `isspace`/`strip`, ASCII `lower`, slicing with
 * Python's index normalisation, `rfind`, `split` on one character,
 * `join`, and `str(n)` for a natural number.
 */
module PyText {

  /** The characters Python's `str.isspace()` accepts (taken as an assumption of the model). */
  predicate IsSpace(c: char) {
    c == ' ' || ('\t' <= c <= '\r') || ('\U{1c}' <= c <= '\U{1f}') || c == '\U{85}' || c == '\U{a0}'
    || c == '\U{1680}' || ('\U{2000}' <= c <= '\U{200a}') || c == '\U{2028}' || c == '\U{2029}'
    || c == '\U{202f}' || c == '\U{205f}' || c == '\U{3000}'
  }

  /** `not s.strip()`: the string has no character other than whitespace. */
  predicate Blank(s: string) {
    forall i :: 0 <= i < |s| ==> IsSpace(s[i])
  }

  /** A string that `strip` leaves alone: it neither starts nor ends with whitespace. */
  predicate Trimmed(s: string) {
    s == [] || (!IsSpace(s[0]) && !IsSpace(s[|s| - 1]))
  }

  /** `s.lstrip()`: a suffix of `s`, everything dropped is whitespace. */
  function LStrip(s: string): (r: string)
    ensures |r| <= |s| && r == s[|s| - |r|..]
    ensures r == [] || !IsSpace(r[0])
    ensures forall i :: 0 <= i < |s| - |r| ==> IsSpace(s[i])
  {
    if s == [] || !IsSpace(s[0]) then s else LStrip(s[1..])
  }

  /** `s.rstrip()`: a prefix of `s`, everything dropped is whitespace. */
  function RStrip(s: string): (r: string)
    ensures |r| <= |s| && r == s[..|r|]
    ensures r == [] || !IsSpace(r[|r| - 1])
    ensures forall i :: |r| <= i < |s| ==> IsSpace(s[i])
  {
    if s == [] || !IsSpace(s[|s| - 1]) then s else RStrip(s[..|s| - 1])
  }

  /** `s.strip()`. */
  function Strip(s: string): (r: string)
  {
    RStrip(LStrip(s))
  }

  /** What `strip` returns: a trimmed infix of its input, starting where `lstrip` starts. */
  lemma StripSpec(s: string)
    ensures Trimmed(Strip(s))
    ensures |Strip(s)| <= |s|
    ensures Strip(s) == s[|s| - |LStrip(s)|..|s| - |LStrip(s)| + |Strip(s)|]
  {
    StripTrimmedResult(s);
    StripInfix(s);
  }

  lemma StripTrimmedResult(s: string)
    ensures Trimmed(Strip(s))
  {
    var l := LStrip(s);
    var r := RStrip(l);
    if r != [] {
      assert r == l[..|r|];
      assert r[0] == l[0];
    }
  }

  lemma StripInfix(s: string)
    ensures |Strip(s)| <= |LStrip(s)| <= |s|
    ensures Strip(s) == s[|s| - |LStrip(s)|..|s| - |LStrip(s)| + |Strip(s)|]
  {
    var l := LStrip(s);
    var r := RStrip(l);
    var d := |s| - |l|;
    assert l == s[d..];
    assert r == l[..|r|];
    assert s[d..d + |r|] == r;
  }

  /** `strip` returns the empty string exactly when its input is blank. */
  lemma StripEmptyIffBlank(s: string)
    ensures Strip(s) == [] <==> Blank(s)
  {
  }

  /** A string that is already trimmed is its own `strip`. */
  lemma StripTrimmed(s: string)
    requires Trimmed(s)
    ensures Strip(s) == s
  {
  }

  /** `strip` is idempotent. */
  lemma StripIdempotent(s: string)
    ensures Strip(Strip(s)) == Strip(s)
  {
    StripSpec(s);
    StripTrimmed(Strip(s));
  }

  /** Every character of `strip(s)` is a character of `s`. */
  lemma StripChars(s: string, c: char)
    requires c in Strip(s)
    ensures c in s
  {
    var r := Strip(s);
    StripSpec(s);
    var i :| 0 <= i < |r| && r[i] == c;
    assert s[|s| - |LStrip(s)| + i] == c;
  }

  /** `c.lower()` for ASCII; every other character is left as it is. */
  function LowerChar(c: char): char {
    if 'A' <= c <= 'Z' then (c as int + 32) as char else c
  }

  /** `s.lower()`, ASCII letters only. */
  function Lower(s: string): (r: string)
    ensures |r| == |s|
    ensures forall i :: 0 <= i < |s| ==> r[i] == LowerChar(s[i])
  {
    seq(|s|, i requires 0 <= i < |s| => LowerChar(s[i]))
  }

  /** A slice bound after Python's normalisation: negative counts from the end, then clipped to [0, n]. */
  function SliceBound(i: int, n: nat): (r: nat)
    ensures r <= n
    ensures 0 <= i <= n ==> r == i
  {
    if i < 0 then (if i + n < 0 then 0 else i + n) else if i > n then n else i
  }

  /** `s[i:j]`. */
  function Slice(s: string, i: int, j: int): (r: string)
    ensures |r| <= |s|
  {
    var lo, hi := SliceBound(i, |s|), SliceBound(j, |s|);
    if lo < hi then s[lo..hi] else []
  }

  /** The start bound of `str.rfind`: negative counts from the end, but it is not clipped to the length. */
  function FindStart(i: int, n: nat): nat {
    if i < 0 then (if i + n < 0 then 0 else i + n) else i
  }

  /** `sub` occurs in `s` at position `k`. */
  predicate OccursAt(s: string, sub: string, k: int) {
    0 <= k && k + |sub| <= |s| && s[k..k + |sub|] == sub
  }

  /** No occurrence of `sub` lies wholly inside `s[lo:hi]`. */
  predicate NoOccurrence(s: string, sub: string, lo: int, hi: int) {
    forall k :: lo <= k && k + |sub| <= hi ==> !OccursAt(s, sub, k)
  }

  /** The largest `k` in [lo, k0] at which `sub` occurs, or -1. */
  function LastOccurrence(s: string, sub: string, lo: nat, k0: int): (r: int)
    ensures r == -1 || (lo <= r <= k0 && OccursAt(s, sub, r))
    ensures forall k :: r < k <= k0 && lo <= k ==> !OccursAt(s, sub, k)
    decreases k0 - lo
  {
    if k0 < lo then -1
    else if OccursAt(s, sub, k0) then k0
    else LastOccurrence(s, sub, lo, k0 - 1)
  }

  /** `strip(s)` occurs in `s`, at offset `d`. */
  lemma StripOccurs(s: string) returns (d: nat)
    ensures OccursAt(s, Strip(s), d)
  {
    var l := LStrip(s);
    var r := RStrip(l);
    assert |r| <= |l| <= |s|;
    d := |s| - |l|;
    assert r == l[..|r|] && l == s[d..];
    assert s[d..d + |r|] == r;
  }

  /** `s.rfind(sub, i, j)`: the highest index of an occurrence of `sub` inside `s[i:j]`, or -1. */
  function RFind(s: string, sub: string, i: int, j: int): (r: int)
    ensures r == -1 || (FindStart(i, |s|) <= r && r + |sub| <= SliceBound(j, |s|) && OccursAt(s, sub, r))
    ensures forall k :: FindStart(i, |s|) <= k && k + |sub| <= SliceBound(j, |s|) && OccursAt(s, sub, k) ==> k <= r
  {
    LastOccurrence(s, sub, FindStart(i, |s|), SliceBound(j, |s|) - |sub|)
  }

  /** Number of occurrences of `c` in `s`. */
  function Count(s: string, c: char): nat {
    if s == [] then 0 else (if s[0] == c then 1 else 0) + Count(s[1..], c)
  }

  /** `s.split(sep)` for a one-character separator. */
  function SplitOn(s: string, sep: char): (r: seq<string>)
    ensures |r| == Count(s, sep) + 1
    ensures forall k :: 0 <= k < |r| ==> sep !in r[k]
  {
    if s == [] then [[]]
    else
      var rest := SplitOn(s[1..], sep);
      if s[0] == sep then [[]] + rest else [[s[0]] + rest[0]] + rest[1..]
  }

  /** `sep.join(parts)`. */
  function Join(parts: seq<string>, sep: string): string {
    if |parts| == 0 then []
    else if |parts| == 1 then parts[0]
    else parts[0] + sep + Join(parts[1..], sep)
  }

  /** Joining the pieces of a split with the same separator gives back the string. */
  lemma {:induction false} JoinSplitOn(s: string, sep: char)
    ensures Join(SplitOn(s, sep), [sep]) == s
  {
    if s != [] {
      var rest := SplitOn(s[1..], sep);
      JoinSplitOn(s[1..], sep);
      if s[0] == sep {
        assert SplitOn(s, sep) == [[]] + rest;
        assert ([[]] + rest)[1..] == rest;
      } else {
        var r := SplitOn(s, sep);
        assert r == [[s[0]] + rest[0]] + rest[1..];
        if |rest| == 1 {
          assert Join(rest, [sep]) == rest[0];
        } else {
          assert r[1..] == rest[1..];
          assert Join(rest, [sep]) == rest[0] + [sep] + Join(rest[1..], [sep]);
        }
      }
    }
  }

  /** Splitting a join of separator-free parts gives back the parts. */
  lemma {:induction false} SplitOnJoin(parts: seq<string>, sep: char)
    requires |parts| >= 1
    requires forall k :: 0 <= k < |parts| ==> sep !in parts[k]
    ensures SplitOn(Join(parts, [sep]), sep) == parts
    decreases |parts|, |parts[0]|
  {
    var p := parts[0];
    if p == [] {
      if |parts| > 1 {
        SplitOnJoin(parts[1..], sep);
        assert Join(parts, [sep]) == [sep] + Join(parts[1..], [sep]);
        assert (Join(parts, [sep]))[1..] == Join(parts[1..], [sep]);
        assert [p] + parts[1..] == parts;
      }
    } else {
      var tail := [p[1..]] + parts[1..];
      SplitOnJoin(tail, sep);
      var s := Join(parts, [sep]);
      if |parts| == 1 {
        assert s == p;
        assert Join(tail, [sep]) == p[1..];
      } else {
        assert tail[1..] == parts[1..];
        assert s == p + [sep] + Join(parts[1..], [sep]);
        assert Join(tail, [sep]) == p[1..] + [sep] + Join(parts[1..], [sep]);
      }
      assert s[0] == p[0] && s[1..] == Join(tail, [sep]);
      assert p[0] != sep by { assert p[0] in parts[0]; }
      assert [p[0]] + p[1..] == p;
      assert [[p[0]] + p[1..]] + parts[1..] == parts;
    }
  }

  /** Appending a part to a non-empty join puts the separator in between. */
  lemma {:induction false} JoinAppend(parts: seq<string>, sep: string, p: string)
    requires |parts| >= 1
    ensures Join(parts + [p], sep) == Join(parts, sep) + sep + p
  {
    if |parts| > 1 {
      JoinAppend(parts[1..], sep, p);
      assert (parts + [p])[1..] == parts[1..] + [p];
    }
  }

  /** A join is blank exactly when every part is blank. */
  lemma {:induction false} JoinBlank(parts: seq<string>, sep: string)
    requires Blank(sep)
    ensures Blank(Join(parts, sep)) <==> forall k :: 0 <= k < |parts| ==> Blank(parts[k])
  {
    if |parts| > 1 {
      JoinBlank(parts[1..], sep);
      var rest := Join(parts[1..], sep);
      var s := parts[0] + sep + rest;
      assert Join(parts, sep) == s;
      if Blank(s) {
        assert forall i :: 0 <= i < |parts[0]| ==> s[i] == parts[0][i];
        assert forall i :: 0 <= i < |rest| ==> s[|parts[0]| + |sep| + i] == rest[i];
        forall k | 0 <= k < |parts| ensures Blank(parts[k]) {
          if k > 0 { assert parts[k] == parts[1..][k - 1]; }
        }
      }
      if forall k :: 0 <= k < |parts| ==> Blank(parts[k]) {
        forall k | 0 <= k < |parts[1..]| ensures Blank(parts[1..][k]) {
          assert parts[1..][k] == parts[k + 1];
        }
        assert Blank(parts[0]) && Blank(rest);
        forall i | 0 <= i < |s| ensures IsSpace(s[i]) {
          if i < |parts[0]| {
            assert s[i] == parts[0][i];
          } else if i < |parts[0]| + |sep| {
            assert s[i] == sep[i - |parts[0]|];
          } else {
            assert s[i] == rest[i - |parts[0]| - |sep|];
          }
        }
      }
    }
  }

  /** The decimal digit for `d`. */
  function DigitChar(d: nat): char
    requires d < 10
  {
    ('0' as int + d) as char
  }

  /** `str(n)` for a natural number. */
  function Decimal(n: nat): (r: string)
    ensures |r| >= 1
    ensures forall i :: 0 <= i < |r| ==> '0' <= r[i] <= '9'
  {
    if n < 10 then [DigitChar(n)] else Decimal(n / 10) + [DigitChar(n % 10)]
  }

  /** `int(s)` for a string of decimal digits. */
  function DecimalValue(s: string): nat
    requires forall i :: 0 <= i < |s| ==> '0' <= s[i] <= '9'
  {
    if s == [] then 0 else DecimalValue(s[..|s| - 1]) * 10 + (s[|s| - 1] as int - '0' as int)
  }

  /** `int(str(n)) == n`: the rendering loses nothing. */
  lemma {:induction false} DecimalRoundTrip(n: nat)
    ensures DecimalValue(Decimal(n)) == n
  {
    if n >= 10 {
      DecimalRoundTrip(n / 10);
      var s := Decimal(n);
      assert s[..|s| - 1] == Decimal(n / 10);
    }
  }
}
