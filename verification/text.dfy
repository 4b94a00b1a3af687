/** String primitives the back end relies on, written out with the semantics
    of the Java library calls they stand for: `String.trim`, ASCII case
    mapping, `contains`, `startsWith`, `split(",")` and decimal formatting. */
module Text {

  // ---------------------------------------------------------------------
  // Trimming
  // ---------------------------------------------------------------------

  /** The characters Java's `String.trim` removes: every code point up to U+0020. */
  predicate IsJavaBlank(c: char) {
    c <= ' '
  }

  /** Drops the longest prefix of characters satisfying `strip`. */
  function TrimStart(s: string, strip: char -> bool): (r: string)
    ensures |r| <= |s| && r == s[|s| - |r|..]
    ensures forall i :: 0 <= i < |s| - |r| ==> strip(s[i])
    ensures r == [] || !strip(r[0])
    decreases |s|
  {
    if |s| > 0 && strip(s[0]) then TrimStart(s[1..], strip) else s
  }

  /** Drops the longest suffix of characters satisfying `strip`. */
  function TrimEnd(s: string, strip: char -> bool): (r: string)
    ensures |r| <= |s| && r == s[..|r|]
    ensures forall i :: |r| <= i < |s| ==> strip(s[i])
    ensures r == [] || !strip(r[|r| - 1])
    decreases |s|
  {
    if |s| > 0 && strip(s[|s| - 1]) then TrimEnd(s[..|s| - 1], strip) else s
  }

  /** Removes leading and trailing characters satisfying `strip`: the result is
      the slice of `s` left once both blank ends are cut away. */
  function Trim(s: string, strip: char -> bool): (r: string)
    ensures |r| <= |s|
    ensures r == [] || (!strip(r[0]) && !strip(r[|r| - 1]))
  {
    TrimEnd(TrimStart(s, strip), strip)
  }

  /** Trimming keeps a slice of the input and cuts only strippable characters
      from either end. */
  lemma TrimIsSlice(s: string, strip: char -> bool)
    ensures exists i, j :: 0 <= i <= j <= |s| && Trim(s, strip) == s[i..j]
                           && (forall k :: 0 <= k < i ==> strip(s[k]))
                           && (forall k :: j <= k < |s| ==> strip(s[k]))
  {
    var t := TrimStart(s, strip);
    var r := TrimEnd(t, strip);
    var i := |s| - |t|;
    assert r == s[i..i + |r|];
    assert forall k :: i + |r| <= k < |s| ==> s[k] == t[k - i];
  }

  /** Java's `String.trim()`. */
  function JavaTrim(s: string): string {
    Trim(s, IsJavaBlank)
  }

  lemma {:induction false} TrimStartFixed(s: string, strip: char -> bool)
    requires s == [] || !strip(s[0])
    ensures TrimStart(s, strip) == s
  {
  }

  lemma {:induction false} TrimEndFixed(s: string, strip: char -> bool)
    requires s == [] || !strip(s[|s| - 1])
    ensures TrimEnd(s, strip) == s
  {
  }

  /** Trimming twice is trimming once. */
  lemma TrimIdempotent(s: string, strip: char -> bool)
    ensures Trim(Trim(s, strip), strip) == Trim(s, strip)
  {
    var r := Trim(s, strip);
    TrimStartFixed(r, strip);
    TrimEndFixed(r, strip);
  }

  /** Strippable padding around a core that starts and ends with a kept
      character is exactly what trimming removes. */
  lemma TrimPadded(p: string, t: string, q: string, strip: char -> bool)
    requires forall k :: 0 <= k < |p| ==> strip(p[k])
    requires forall k :: 0 <= k < |q| ==> strip(q[k])
    requires t != [] && !strip(t[0]) && !strip(t[|t| - 1])
    ensures Trim(p + t + q, strip) == t
  {
    TrimStartPadded(p, t + q, strip);
    assert p + t + q == p + (t + q);
    TrimEndPadded(t, q, strip);
  }

  lemma {:induction false} TrimStartPadded(p: string, t: string, strip: char -> bool)
    requires forall k :: 0 <= k < |p| ==> strip(p[k])
    requires t != [] && !strip(t[0])
    ensures TrimStart(p + t, strip) == t
    decreases |p|
  {
    if p != [] {
      assert (p + t)[1..] == p[1..] + t;
      TrimStartPadded(p[1..], t, strip);
    } else {
      assert p + t == t;
    }
  }

  lemma {:induction false} TrimEndPadded(t: string, q: string, strip: char -> bool)
    requires forall k :: 0 <= k < |q| ==> strip(q[k])
    requires t != [] && !strip(t[|t| - 1])
    ensures TrimEnd(t + q, strip) == t
    decreases |q|
  {
    if q != [] {
      assert (t + q)[..|t + q| - 1] == t + q[..|q| - 1];
      TrimEndPadded(t, q[..|q| - 1], strip);
    } else {
      assert t + q == t;
    }
  }

  /** Strippable padding around any string is removed by trimming. */
  lemma TrimAround(p: string, x: string, q: string, strip: char -> bool)
    requires forall k :: 0 <= k < |p| ==> strip(p[k])
    requires forall k :: 0 <= k < |q| ==> strip(q[k])
    ensures Trim(p + x + q, strip) == Trim(x, strip)
  {
    assert p + x + q == p + (x + q);
    TrimStartPrefix(p, x + q, strip);
    var t := TrimStart(x, strip);
    if t == [] {
      assert forall k :: 0 <= k < |x + q| ==> strip((x + q)[k]);
      TrimStartPrefix(x + q, [], strip);
      assert x + q + [] == x + q;
    } else {
      TrimStartKeepsTail(x, q, strip);
      TrimEndSuffix(t, q, strip);
    }
  }

  lemma {:induction false} TrimStartPrefix(p: string, x: string, strip: char -> bool)
    requires forall k :: 0 <= k < |p| ==> strip(p[k])
    ensures TrimStart(p + x, strip) == TrimStart(x, strip)
    decreases |p|
  {
    if p != [] {
      assert (p + x)[1..] == p[1..] + x;
      TrimStartPrefix(p[1..], x, strip);
    } else {
      assert p + x == x;
    }
  }

  lemma {:induction false} TrimStartKeepsTail(x: string, q: string, strip: char -> bool)
    requires TrimStart(x, strip) != []
    ensures TrimStart(x + q, strip) == TrimStart(x, strip) + q
    decreases |x|
  {
    assert (x + q)[0] == x[0];
    if strip(x[0]) {
      assert (x + q)[1..] == x[1..] + q;
      TrimStartKeepsTail(x[1..], q, strip);
    }
  }

  lemma {:induction false} TrimEndSuffix(x: string, q: string, strip: char -> bool)
    requires forall k :: 0 <= k < |q| ==> strip(q[k])
    ensures TrimEnd(x + q, strip) == TrimEnd(x, strip)
    decreases |q|
  {
    if q != [] {
      assert (x + q)[..|x + q| - 1] == x + q[..|q| - 1];
      TrimEndSuffix(x, q[..|q| - 1], strip);
    } else {
      assert x + q == x;
    }
  }

  /** Two strip predicates that agree on every character of `s` trim it alike. */
  lemma {:induction false} TrimStartAgree(s: string, p: char -> bool, q: char -> bool)
    requires forall k :: 0 <= k < |s| ==> p(s[k]) == q(s[k])
    ensures TrimStart(s, p) == TrimStart(s, q)
    decreases |s|
  {
    if |s| > 0 && p(s[0]) {
      TrimStartAgree(s[1..], p, q);
    }
  }

  lemma {:induction false} TrimEndAgree(s: string, p: char -> bool, q: char -> bool)
    requires forall k :: 0 <= k < |s| ==> p(s[k]) == q(s[k])
    ensures TrimEnd(s, p) == TrimEnd(s, q)
    decreases |s|
  {
    if |s| > 0 && p(s[|s| - 1]) {
      TrimEndAgree(s[..|s| - 1], p, q);
    }
  }

  lemma TrimAgree(s: string, p: char -> bool, q: char -> bool)
    requires forall k :: 0 <= k < |s| ==> p(s[k]) == q(s[k])
    ensures Trim(s, p) == Trim(s, q)
  {
    TrimStartAgree(s, p, q);
    var t := TrimStart(s, p);
    assert forall k :: 0 <= k < |t| ==> t[k] == s[|s| - |t| + k];
    TrimEndAgree(t, p, q);
  }

  // ---------------------------------------------------------------------
  // Case mapping (ASCII letters only)
  // ---------------------------------------------------------------------

  predicate IsUpperAscii(c: char) {
    'A' <= c <= 'Z'
  }

  predicate IsLowerAscii(c: char) {
    'a' <= c <= 'z'
  }

  function LowerChar(c: char): (r: char)
    ensures !IsUpperAscii(r)
    ensures IsUpperAscii(c) ==> r as int == c as int + 32
    ensures !IsUpperAscii(c) ==> r == c
  {
    if IsUpperAscii(c) then (c as int + 32) as char else c
  }

  function UpperChar(c: char): (r: char)
    ensures !IsLowerAscii(r)
    ensures IsLowerAscii(c) ==> r as int == c as int - 32
    ensures !IsLowerAscii(c) ==> r == c
  {
    if IsLowerAscii(c) then (c as int - 32) as char else c
  }

  /** `String.toLowerCase()` restricted to the ASCII letters. */
  function ToLower(s: string): (r: string)
    ensures |r| == |s|
    ensures forall i :: 0 <= i < |s| ==> r[i] == LowerChar(s[i])
  {
    if s == [] then [] else [LowerChar(s[0])] + ToLower(s[1..])
  }

  /** Lower-casing works character by character, so it distributes over
      concatenation. */
  lemma ToLowerAppend(a: string, b: string)
    ensures ToLower(a + b) == ToLower(a) + ToLower(b)
  {
  }

  /** `String.toUpperCase()` restricted to the ASCII letters. */
  function ToUpper(s: string): (r: string)
    ensures |r| == |s|
    ensures forall i :: 0 <= i < |s| ==> r[i] == UpperChar(s[i])
  {
    if s == [] then [] else [UpperChar(s[0])] + ToUpper(s[1..])
  }

  // ---------------------------------------------------------------------
  // Prefixes and substrings
  // ---------------------------------------------------------------------

  /** `s.startsWith(p)`. */
  predicate StartsWith(s: string, p: string) {
    |p| <= |s| && s[..|p|] == p
  }

  /** `sub` occurs in `s` starting at position `i`. */
  predicate OccursAt(s: string, sub: string, i: int) {
    0 <= i && i + |sub| <= |s| && s[i..i + |sub|] == sub
  }

  /** `s.contains(sub)`: `sub` occurs at some position of `s`. */
  predicate Contains(s: string, sub: string) {
    exists i :: 0 <= i <= |s| - |sub| && OccursAt(s, sub, i)
  }

  /** Every string contains the empty string. */
  lemma ContainsEmpty(s: string)
    ensures Contains(s, "")
  {
    assert OccursAt(s, "", 0);
  }

  /** Every string contains itself. */
  lemma ContainsSelf(s: string)
    ensures Contains(s, s)
  {
    assert OccursAt(s, s, 0);
  }

  /** A piece of a concatenation is contained in it. */
  lemma ContainsPiece(a: string, b: string, c: string)
    ensures Contains(a + b + c, b)
  {
    var s := a + b + c;
    assert s[|a|..|a| + |b|] == b;
    assert OccursAt(s, b, |a|);
  }

  /** Nothing longer than `s` occurs in `s`. */
  lemma NotContainsLonger(s: string, sub: string)
    requires |sub| > |s|
    ensures !Contains(s, sub)
  {
  }

  // ---------------------------------------------------------------------
  // Splitting on a separator
  // ---------------------------------------------------------------------

  /** Cuts `s` at every occurrence of `sep`, keeping every piece, empty ones included. */
  function Split(s: string, sep: char): (r: seq<string>)
    ensures |r| >= 1
    ensures forall i, k :: 0 <= i < |r| && 0 <= k < |r[i]| ==> r[i][k] != sep
    decreases |s|
  {
    if s == [] then [""]
    else
      var rest := Split(s[1..], sep);
      if s[0] == sep then [""] + rest
      else [[s[0]] + rest[0]] + rest[1..]
  }

  /** Glues pieces back together with `sep` between neighbours. */
  function Join(pieces: seq<string>, sep: char): string
    requires |pieces| >= 1
  {
    if |pieces| == 1 then pieces[0] else pieces[0] + [sep] + Join(pieces[1..], sep)
  }

  /** Splitting loses nothing: joining the pieces rebuilds the input. */
  lemma {:induction false} JoinSplit(s: string, sep: char)
    ensures Join(Split(s, sep), sep) == s
    decreases |s|
  {
    if s != [] {
      var rest := Split(s[1..], sep);
      JoinSplit(s[1..], sep);
      if s[0] == sep {
        assert Split(s, sep)[1..] == rest;
      } else {
        var r := Split(s, sep);
        assert r[1..] == rest[1..];
        if |rest| == 1 {
          assert Join(r, sep) == [s[0]] + rest[0];
        } else {
          assert Join(rest, sep) == rest[0] + [sep] + Join(rest[1..], sep);
          assert Join(r, sep) == [s[0]] + rest[0] + [sep] + Join(rest[1..], sep);
        }
      }
    }
  }

  /** Drops the empty pieces at the end of a split, as Java's `split` does. */
  function DropTrailingEmpty(pieces: seq<string>): (r: seq<string>)
    ensures |r| <= |pieces| && r == pieces[..|r|]
    ensures forall i :: |r| <= i < |pieces| ==> pieces[i] == ""
    ensures r == [] || r[|r| - 1] != ""
    decreases |pieces|
  {
    if pieces != [] && pieces[|pieces| - 1] == "" then DropTrailingEmpty(pieces[..|pieces| - 1])
    else pieces
  }

  /** Java's `s.split(String.valueOf(sep))`: an input without the separator is
      returned whole; otherwise the trailing empty pieces are removed. */
  function JavaSplit(s: string, sep: char): seq<string> {
    if sep !in s then [s] else DropTrailingEmpty(Split(s, sep))
  }

  // ---------------------------------------------------------------------
  // Decimal rendering of whole numbers
  // ---------------------------------------------------------------------

  function DigitChar(d: nat): (c: char)
    requires d < 10
    ensures '0' <= c <= '9' && c as int - '0' as int == d
  {
    (d + '0' as int) as char
  }

  /** Decimal digits of `n`, most significant first, without leading zeros:
      what `String.format("%.0f", n)` prints for a whole number `n`. */
  function NatToString(n: nat): (r: string)
    ensures 1 <= |r|
    ensures forall i :: 0 <= i < |r| ==> '0' <= r[i] <= '9'
    ensures |r| > 1 ==> r[0] != '0'
    decreases n
  {
    if n < 10 then [DigitChar(n)] else NatToString(n / 10) + [DigitChar(n % 10)]
  }

  /** The number a string of decimal digits denotes. */
  function DigitsValue(s: string): nat
    requires forall i :: 0 <= i < |s| ==> '0' <= s[i] <= '9'
  {
    if s == [] then 0 else 10 * DigitsValue(s[..|s| - 1]) + (s[|s| - 1] as int - '0' as int)
  }

  /** Rendering is faithful: reading the digits back yields the number. */
  lemma {:induction false} NatToStringValue(n: nat)
    ensures DigitsValue(NatToString(n)) == n
    decreases n
  {
    var r := NatToString(n);
    if n >= 10 {
      NatToStringValue(n / 10);
      assert r[..|r| - 1] == NatToString(n / 10);
    }
  }
}
