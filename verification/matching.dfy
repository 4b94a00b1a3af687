/** The skill matcher of `MatchingService`: the fit score between a candidate's
    skills and a job's requirements, and the string-list codec used to store
    both lists as text. */
module Matching {
  import opened Wrappers
  import opened Text

  // ---------------------------------------------------------------------
  // The score
  // ---------------------------------------------------------------------

  /** `s.toLowerCase().trim()` as the Java service computes it. */
  function JavaNormalize(s: string): string {
    JavaTrim(ToLower(s))
  }

  /** Bidirectional containment: either string occurs in the other. */
  predicate Covers(skill: string, req: string) {
    Contains(skill, req) || Contains(req, skill)
  }

  /** The `anyMatch` over the normalised skills for one requirement. */
  predicate SomeSkillCovers(norm: string -> string, skills: seq<string>, req: string)
    decreases |skills|
  {
    |skills| > 0 && (Covers(norm(skills[0]), norm(req)) || SomeSkillCovers(norm, skills[1..], req))
  }

  /** A requirement is matched exactly when some skill, once normalised,
      contains it or is contained in it. */
  lemma {:induction false} SomeSkillCoversIff(norm: string -> string, skills: seq<string>, req: string)
    ensures SomeSkillCovers(norm, skills, req)
            <==> exists i :: 0 <= i < |skills| && Covers(norm(skills[i]), norm(req))
    decreases |skills|
  {
    if |skills| > 0 {
      SomeSkillCoversIff(norm, skills[1..], req);
      if SomeSkillCovers(norm, skills[1..], req) {
        var i :| 0 <= i < |skills[1..]| && Covers(norm(skills[1..][i]), norm(req));
        assert Covers(norm(skills[i + 1]), norm(req));
      }
      if exists i :: 0 <= i < |skills| && Covers(norm(skills[i]), norm(req)) {
        var i :| 0 <= i < |skills| && Covers(norm(skills[i]), norm(req));
        if i > 0 {
          assert Covers(norm(skills[1..][i - 1]), norm(req));
        }
      }
    }
  }

  /** The number of requirements some skill covers, duplicates counted each time. */
  function MatchedCount(norm: string -> string, skills: seq<string>, reqs: seq<string>): (m: nat)
    ensures m <= |reqs|
    decreases |reqs|
  {
    if reqs == [] then 0
    else (if SomeSkillCovers(norm, skills, reqs[0]) then 1 else 0) + MatchedCount(norm, skills, reqs[1..])
  }

  /** `Math.round(100 * m / n)` in exact arithmetic: the nearest whole
      percentage, halves rounded up. */
  function RoundedPercent(m: nat, n: nat): (r: nat)
    requires 0 < n && m <= n
    ensures r <= 100
    ensures 2 * n * r <= 200 * m + n < 2 * n * (r + 1)
  {
    HalfUpBounds(m, n);
    (200 * m + n) / (2 * n)
  }

  /** The arithmetic behind `RoundedPercent`: the quotient is a percentage
      and lies within half a unit of `100 * m / n`. */
  lemma HalfUpBounds(m: nat, n: nat)
    requires 0 < n && m <= n
    ensures (200 * m + n) / (2 * n) <= 100
    ensures 2 * n * ((200 * m + n) / (2 * n)) <= 200 * m + n < 2 * n * ((200 * m + n) / (2 * n) + 1)
  {
    var d, x := 2 * n, 200 * m + n;
    var q, rem := x / d, x % d;
    assert x == d * q + rem && 0 <= rem < d;
    assert d * (q + 1) == d * q + d;
    if q > 100 {
      MulAtLeast(d, q, 101);
    }
  }

  /** Multiplying by a non-negative factor keeps an inequality. */
  lemma MulAtLeast(d: nat, q: nat, k: nat)
    requires k <= q
    ensures d * k <= d * q
  {
    assert d * q == d * k + d * (q - k);
  }

  /** Full coverage rounds to exactly 100 and no coverage to exactly 0. */
  lemma RoundedPercentEnds(n: nat)
    requires 0 < n
    ensures RoundedPercent(n, n) == 100
    ensures RoundedPercent(0, n) == 0
  {
    var r := RoundedPercent(n, n);
    if r < 100 {
      MulAtLeast(2 * n, 100, r + 1);
    }
    var z := RoundedPercent(0, n);
    if z > 0 {
      MulAtLeast(2 * n, z, 1);
    }
  }

  /** The score for a normaliser: 0 without requirements, otherwise the rounded
      percentage of matched requirements over the raw requirement count. */
  function ScoreBy(norm: string -> string, skills: seq<string>, reqs: seq<string>): (r: nat)
    ensures r <= 100
    ensures reqs == [] ==> r == 0
  {
    if reqs == [] then 0 else RoundedPercent(MatchedCount(norm, skills, reqs), |reqs|)
  }

  /** The Java matcher on already decoded lists. */
  function Score(skills: seq<string>, reqs: seq<string>): (r: nat)
    ensures r <= 100
    ensures reqs == [] ==> r == 0
  {
    ScoreBy(JavaNormalize, skills, reqs)
  }

  // --- properties of the count and the score -----------------------------

  /** The count is additive over concatenated requirement lists, so a repeated
      requirement is counted once per occurrence. */
  lemma {:induction false} MatchedCountAppend(norm: string -> string, skills: seq<string>, a: seq<string>, b: seq<string>)
    ensures MatchedCount(norm, skills, a + b) == MatchedCount(norm, skills, a) + MatchedCount(norm, skills, b)
    decreases |a|
  {
    if a != [] {
      assert (a + b)[0] == a[0];
      assert (a + b)[1..] == a[1..] + b;
      MatchedCountAppend(norm, skills, a[1..], b);
    } else {
      assert a + b == b;
    }
  }

  /** Every requirement covered: the count is the requirement count. */
  lemma {:induction false} MatchedCountAll(norm: string -> string, skills: seq<string>, reqs: seq<string>)
    requires forall i :: 0 <= i < |reqs| ==> SomeSkillCovers(norm, skills, reqs[i])
    ensures MatchedCount(norm, skills, reqs) == |reqs|
    decreases |reqs|
  {
    if reqs != [] {
      assert forall i :: 0 <= i < |reqs[1..]| ==> reqs[1..][i] == reqs[i + 1];
      MatchedCountAll(norm, skills, reqs[1..]);
    }
  }

  /** No requirement covered: the count is zero. */
  lemma {:induction false} MatchedCountNone(norm: string -> string, skills: seq<string>, reqs: seq<string>)
    requires forall i :: 0 <= i < |reqs| ==> !SomeSkillCovers(norm, skills, reqs[i])
    ensures MatchedCount(norm, skills, reqs) == 0
    decreases |reqs|
  {
    if reqs != [] {
      assert forall i :: 0 <= i < |reqs[1..]| ==> reqs[1..][i] == reqs[i + 1];
      MatchedCountNone(norm, skills, reqs[1..]);
    }
  }

  /** When every requirement is covered the score is 100. */
  lemma ScoreAllMatched(norm: string -> string, skills: seq<string>, reqs: seq<string>)
    requires reqs != []
    requires forall i :: 0 <= i < |reqs| ==> SomeSkillCovers(norm, skills, reqs[i])
    ensures ScoreBy(norm, skills, reqs) == 100
  {
    MatchedCountAll(norm, skills, reqs);
    RoundedPercentEnds(|reqs|);
  }

  /** When no requirement is covered the score is 0. */
  lemma ScoreNoneMatched(norm: string -> string, skills: seq<string>, reqs: seq<string>)
    requires forall i :: 0 <= i < |reqs| ==> !SomeSkillCovers(norm, skills, reqs[i])
    ensures ScoreBy(norm, skills, reqs) == 0
  {
    MatchedCountNone(norm, skills, reqs);
    if reqs != [] {
      RoundedPercentEnds(|reqs|);
    }
  }

  /** A candidate without skills scores 0 against any requirement list. */
  lemma ScoreNoSkills(norm: string -> string, reqs: seq<string>)
    ensures ScoreBy(norm, [], reqs) == 0
  {
    ScoreNoneMatched(norm, [], reqs);
  }

  /** A skill that normalises to the empty string covers every requirement,
      because every string contains the empty string. */
  lemma BlankSkillCoversAll(norm: string -> string, skills: seq<string>, k: nat, req: string)
    requires k < |skills| && norm(skills[k]) == ""
    ensures SomeSkillCovers(norm, skills, req)
  {
    ContainsEmpty(norm(req));
    assert Covers(norm(skills[k]), norm(req));
    SomeSkillCoversIff(norm, skills, req);
  }

  /** Hence one blank skill lifts any non-empty requirement list to 100. */
  lemma BlankSkillScoresFull(norm: string -> string, skills: seq<string>, k: nat, reqs: seq<string>)
    requires k < |skills| && norm(skills[k]) == ""
    requires reqs != []
    ensures ScoreBy(norm, skills, reqs) == 100
  {
    forall i | 0 <= i < |reqs|
      ensures SomeSkillCovers(norm, skills, reqs[i])
    {
      BlankSkillCoversAll(norm, skills, k, reqs[i]);
    }
    ScoreAllMatched(norm, skills, reqs);
  }

  /** A requirement covered by some skills stays covered when a skill is added. */
  lemma CoversMonotone(norm: string -> string, skills: seq<string>, extra: string, req: string)
    requires SomeSkillCovers(norm, skills, req)
    ensures SomeSkillCovers(norm, skills + [extra], req)
  {
    SomeSkillCoversIff(norm, skills, req);
    SomeSkillCoversIff(norm, skills + [extra], req);
    var i :| 0 <= i < |skills| && Covers(norm(skills[i]), norm(req));
    assert (skills + [extra])[i] == skills[i];
  }

  lemma {:induction false} MatchedCountMonotone(norm: string -> string, skills: seq<string>, extra: string, reqs: seq<string>)
    ensures MatchedCount(norm, skills, reqs) <= MatchedCount(norm, skills + [extra], reqs)
    decreases |reqs|
  {
    if reqs != [] {
      if SomeSkillCovers(norm, skills, reqs[0]) {
        CoversMonotone(norm, skills, extra, reqs[0]);
      }
      MatchedCountMonotone(norm, skills, extra, reqs[1..]);
    }
  }

  lemma RoundedPercentMonotone(m: nat, m': nat, n: nat)
    requires 0 < n && m <= m' <= n
    ensures RoundedPercent(m, n) <= RoundedPercent(m', n)
  {
    var r, r' := RoundedPercent(m, n), RoundedPercent(m', n);
    if r > r' {
      MulAtLeast(2 * n, r, r' + 1);
    }
  }

  /** Adding a skill never lowers the score. */
  lemma ScoreAddSkill(norm: string -> string, skills: seq<string>, extra: string, reqs: seq<string>)
    ensures ScoreBy(norm, skills, reqs) <= ScoreBy(norm, skills + [extra], reqs)
  {
    if reqs != [] {
      MatchedCountMonotone(norm, skills, extra, reqs);
      RoundedPercentMonotone(MatchedCount(norm, skills, reqs), MatchedCount(norm, skills + [extra], reqs), |reqs|);
    }
  }

  /** Scores depend on the normaliser only through the strings it is applied to. */
  lemma {:induction false} SomeSkillCoversAgree(p: string -> string, q: string -> string, skills: seq<string>, req: string)
    requires p(req) == q(req)
    requires forall i :: 0 <= i < |skills| ==> p(skills[i]) == q(skills[i])
    ensures SomeSkillCovers(p, skills, req) == SomeSkillCovers(q, skills, req)
    decreases |skills|
  {
    if |skills| > 0 {
      assert forall i :: 0 <= i < |skills[1..]| ==> skills[1..][i] == skills[i + 1];
      SomeSkillCoversAgree(p, q, skills[1..], req);
    }
  }

  lemma {:induction false} MatchedCountAgree(p: string -> string, q: string -> string, skills: seq<string>, reqs: seq<string>)
    requires forall i :: 0 <= i < |reqs| ==> p(reqs[i]) == q(reqs[i])
    requires forall i :: 0 <= i < |skills| ==> p(skills[i]) == q(skills[i])
    ensures MatchedCount(p, skills, reqs) == MatchedCount(q, skills, reqs)
    decreases |reqs|
  {
    if reqs != [] {
      SomeSkillCoversAgree(p, q, skills, reqs[0]);
      assert forall i :: 0 <= i < |reqs[1..]| ==> reqs[1..][i] == reqs[i + 1];
      MatchedCountAgree(p, q, skills, reqs[1..]);
    }
  }

  lemma ScoreAgree(p: string -> string, q: string -> string, skills: seq<string>, reqs: seq<string>)
    requires forall i :: 0 <= i < |reqs| ==> p(reqs[i]) == q(reqs[i])
    requires forall i :: 0 <= i < |skills| ==> p(skills[i]) == q(skills[i])
    ensures ScoreBy(p, skills, reqs) == ScoreBy(q, skills, reqs)
  {
    MatchedCountAgree(p, q, skills, reqs);
  }

  /** Lists with the same normal forms, position by position. */
  predicate SameForms(norm: string -> string, xs: seq<string>, ys: seq<string>) {
    |xs| == |ys| && forall i :: 0 <= i < |xs| ==> norm(xs[i]) == norm(ys[i])
  }

  lemma {:induction false} SomeSkillCoversSameForms(norm: string -> string, skills: seq<string>, skills': seq<string>, req: string, req': string)
    requires SameForms(norm, skills, skills') && norm(req) == norm(req')
    ensures SomeSkillCovers(norm, skills, req) == SomeSkillCovers(norm, skills', req')
    decreases |skills|
  {
    if |skills| > 0 {
      SomeSkillCoversSameForms(norm, skills[1..], skills'[1..], req, req');
    }
  }

  lemma {:induction false} MatchedCountSameForms(norm: string -> string, skills: seq<string>, skills': seq<string>, reqs: seq<string>, reqs': seq<string>)
    requires SameForms(norm, skills, skills') && SameForms(norm, reqs, reqs')
    ensures MatchedCount(norm, skills, reqs) == MatchedCount(norm, skills', reqs')
    decreases |reqs|
  {
    if reqs != [] {
      SomeSkillCoversSameForms(norm, skills, skills', reqs[0], reqs'[0]);
      MatchedCountSameForms(norm, skills, skills', reqs[1..], reqs'[1..]);
    }
  }

  /** The score sees its inputs only through their normal forms: lists that
      normalise alike score alike. */
  lemma ScoreSameForms(norm: string -> string, skills: seq<string>, skills': seq<string>, reqs: seq<string>, reqs': seq<string>)
    requires SameForms(norm, skills, skills') && SameForms(norm, reqs, reqs')
    ensures ScoreBy(norm, skills, reqs) == ScoreBy(norm, skills', reqs')
  {
    MatchedCountSameForms(norm, skills, skills', reqs, reqs');
  }

  // ---------------------------------------------------------------------
  // The stored list format
  // ---------------------------------------------------------------------

  /** Trims every item and drops the ones left empty, keeping the order. */
  function CleanItems(xs: seq<string>): (r: seq<string>)
    ensures |r| <= |xs|
    ensures forall i :: 0 <= i < |r| ==> r[i] != ""
    decreases |xs|
  {
    if xs == [] then [] else Kept(xs[0]) + CleanItems(xs[1..])
  }

  /** One item after cleaning: its trimmed text, or nothing when that is empty. */
  function Kept(x: string): (r: seq<string>)
    ensures |r| <= 1
    ensures forall i :: 0 <= i < |r| ==> r[i] != ""
  {
    var t := JavaTrim(x);
    if t == "" then [] else [t]
  }

  /** Every kept item is already trimmed. */
  lemma {:induction false} CleanItemsTrimmed(xs: seq<string>)
    ensures forall i :: 0 <= i < |CleanItems(xs)| ==> JavaTrim(CleanItems(xs)[i]) == CleanItems(xs)[i]
    decreases |xs|
  {
    if xs != [] {
      TrimIdempotent(xs[0], IsJavaBlank);
      CleanItemsTrimmed(xs[1..]);
    }
  }

  /** Cleaning distributes over concatenation: the order of the kept items is
      the order of the input. */
  lemma {:induction false} CleanItemsAppend(a: seq<string>, b: seq<string>)
    ensures CleanItems(a + b) == CleanItems(a) + CleanItems(b)
    decreases |a|
  {
    if a != [] {
      assert (a + b)[0] == a[0];
      assert (a + b)[1..] == a[1..] + b;
      CleanItemsAppend(a[1..], b);
      calc {
        CleanItems(a + b);
        Kept(a[0]) + CleanItems(a[1..] + b);
        Kept(a[0]) + (CleanItems(a[1..]) + CleanItems(b));
        (Kept(a[0]) + CleanItems(a[1..])) + CleanItems(b);
      }
    } else {
      assert a + b == b;
    }
  }

  /** An item survives cleaning exactly when it is not blank. */
  lemma CleanItemsSingle(x: string)
    ensures CleanItems([x]) == if JavaTrim(x) == "" then [] else [JavaTrim(x)]
  {
    assert [x][1..] == [];
  }

  /** Items that are all empty clean away to nothing. */
  lemma {:induction false} CleanItemsAllEmpty(xs: seq<string>)
    requires forall i :: 0 <= i < |xs| ==> xs[i] == ""
    ensures CleanItems(xs) == []
    decreases |xs|
  {
    if xs != [] {
      assert JavaTrim(xs[0]) == "";
      assert forall i :: 0 <= i < |xs[1..]| ==> xs[1..][i] == xs[i + 1];
      CleanItemsAllEmpty(xs[1..]);
    }
  }

  lemma {:induction false} SplitWithoutSeparator(s: string, sep: char)
    requires sep !in s
    ensures Split(s, sep) == [s]
    decreases |s|
  {
    if s != [] {
      assert sep !in s[1..];
      SplitWithoutSeparator(s[1..], sep);
      assert s[0] != sep;
      assert [s[0]] + s[1..] == s;
    }
  }

  /** Java's removal of trailing empty pieces makes no difference once blank
      items are dropped: the comma fallback is "split at every comma, trim, drop
      the blanks". */
  lemma CleanJavaSplit(s: string, sep: char)
    ensures CleanItems(JavaSplit(s, sep)) == CleanItems(Split(s, sep))
  {
    if sep !in s {
      SplitWithoutSeparator(s, sep);
    } else {
      var pieces := Split(s, sep);
      var kept := DropTrailingEmpty(pieces);
      var tail := pieces[|kept|..];
      assert JavaSplit(s, sep) == kept;
      assert pieces == kept + tail;
      assert forall i :: 0 <= i < |tail| ==> tail[i] == pieces[|kept| + i];
      CleanItemsAllEmpty(tail);
      CleanItemsAppend(kept, tail);
      assert CleanItems(kept) + [] == CleanItems(kept);
    }
  }

  /** The list a comma-separated text stands for: split at commas, trimmed,
      blanks dropped. */
  function CommaItems(s: string): (r: seq<string>)
    ensures r == CleanItems(Split(s, ','))
  {
    CleanJavaSplit(s, ',');
    CleanItems(JavaSplit(s, ','))
  }

  /** `parseJsonArray`: null, "" and "[]" are the empty list; otherwise the JSON
      decoder's answer, or the comma fallback when decoding fails. */
  function ParseList(decode: string -> Option<seq<string>>, json: Option<string>): (r: seq<string>)
    ensures json == None || json == Some("") || json == Some("[]") ==> r == []
    ensures json.Some? && json.value != "" && json.value != "[]" && decode(json.value).None?
            ==> r == CleanItems(Split(json.value, ','))
    ensures json.Some? && json.value != "" && json.value != "[]" && decode(json.value).Some?
            ==> r == decode(json.value).value
  {
    match json
    case None => []
    case Some(s) =>
      if s == "" || s == "[]" then []
      else match decode(s)
        case Some(xs) => xs
        case None => CommaItems(s)
  }

  /** `calculateMatchingScore` on the two stored texts. */
  function CalculateMatchingScore(decode: string -> Option<seq<string>>, skillsJson: Option<string>, requirementsJson: Option<string>): (r: nat)
    ensures r <= 100
    ensures ParseList(decode, requirementsJson) == [] ==> r == 0
  {
    Score(ParseList(decode, skillsJson), ParseList(decode, requirementsJson))
  }

  // --- encoding ----------------------------------------------------------

  function HexDigit(d: nat): (c: char)
    requires d < 16
  {
    "0123456789ABCDEF"[d]
  }

  /** The JSON escape of one character, as the JSON writer emits it: quote and
      backslash escaped, control characters as short or `\u00XX` escapes. */
  function EscapeChar(c: char): (r: string)
    ensures |r| >= 1
  {
    if c == '"' then "\\\""
    else if c == '\\' then "\\\\"
    else if c as int == 8 then "\\b"
    else if c == '\t' then "\\t"
    else if c == '\n' then "\\n"
    else if c as int == 12 then "\\f"
    else if c == '\r' then "\\r"
    else if c < ' ' then "\\u00" + [HexDigit(c as int / 16), HexDigit(c as int % 16)]
    else [c]
  }

  function Escape(s: string): string {
    if s == [] then "" else EscapeChar(s[0]) + Escape(s[1..])
  }

  function Quote(s: string): string {
    "\"" + Escape(s) + "\""
  }

  function JoinQuoted(xs: seq<string>): string {
    if xs == [] then ""
    else if |xs| == 1 then Quote(xs[0])
    else Quote(xs[0]) + "," + JoinQuoted(xs[1..])
  }

  /** `writeValueAsString` of a list of strings. */
  function EncodeList(xs: seq<string>): (r: string)
    ensures |r| >= 2 && r[0] == '['
    ensures r == "[]" <==> xs == []
  {
    var r := "[" + JoinQuoted(xs) + "]";
    assert xs != [] ==> r[1] == '"';
    r
  }

  /** The item list `toJsonArray` stores for a comma-separated text. */
  function RequirementItems(text: Option<string>): seq<string> {
    if text == None || text == Some("") then [] else CommaItems(text.value)
  }

  /** `toJsonArray`: null or "" is "[]"; otherwise the JSON encoding of the
      trimmed, non-blank comma-separated items, in order. */
  function ToJsonArray(text: Option<string>): (r: string)
    ensures text == None || text == Some("") ==> r == "[]"
    ensures r == EncodeList(RequirementItems(text))
  {
    if text == None || text == Some("") then "[]"
    else EncodeList(CommaItems(text.value))
  }

  /** Stored requirements read back as the list that was written, for any
      decoder that inverts the encoder. */
  lemma RequirementsRoundTrip(decode: string -> Option<seq<string>>, text: Option<string>)
    requires forall xs :: decode(EncodeList(xs)) == Some(xs)
    ensures ParseList(decode, Some(ToJsonArray(text))) == RequirementItems(text)
  {
    var items := RequirementItems(text);
    if items != [] {
      assert decode(EncodeList(items)) == Some(items);
    }
  }
}
