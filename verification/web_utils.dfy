/** The front end's copy of the matcher and its status palette, from
    `src/lib/utils.ts`: the same score with JavaScript's notion of
    whitespace, and the CSS classes shown for each status name. */
module WebUtils {
  import opened Text
  import opened Matching

  // ---------------------------------------------------------------------
  // The TypeScript matcher
  // ---------------------------------------------------------------------

  /** The characters `String.prototype.trim` removes: ECMAScript white space
      and line terminators. */
  predicate IsJsWhitespace(c: char) {
    ('\U{9}' <= c <= '\U{D}') || c == ' ' || c == '\U{A0}' || c == '\U{1680}'
    || ('\U{2000}' <= c <= '\U{200A}') || c == '\U{2028}' || c == '\U{2029}'
    || c == '\U{202F}' || c == '\U{205F}' || c == '\U{3000}' || c == '\U{FEFF}'
  }

  /** `s.toLowerCase().trim()` as the browser computes it. */
  function JsNormalize(s: string): string {
    Trim(ToLower(s), IsJsWhitespace)
  }

  /** `calculateMatchingScore(candidateSkills, jobRequirements)`: 0 without
      requirements, otherwise the rounded share of requirements that some
      skill covers. */
  function CalculateMatchingScoreTs(skills: seq<string>, reqs: seq<string>): (r: nat)
    ensures r <= 100
    ensures reqs == [] ==> r == 0
    ensures reqs != [] ==> r == RoundedPercent(MatchedCount(JsNormalize, skills, reqs), |reqs|)
  {
    if |reqs| == 0 then 0 else ScoreBy(JsNormalize, skills, reqs)
  }

  // --- the two matchers agree away from exotic whitespace -----------------

  /** Every character of `s` is blank for Java exactly when it is white
      space for JavaScript. */
  predicate BlanksAgree(s: string) {
    forall k :: 0 <= k < |s| ==> IsJavaBlank(s[k]) == IsJsWhitespace(s[k])
  }

  /** Lower-casing touches only letters, so it keeps the agreement. */
  lemma BlanksAgreeLower(s: string)
    requires BlanksAgree(s)
    ensures BlanksAgree(ToLower(s))
  {
    forall k | 0 <= k < |s|
      ensures IsJavaBlank(ToLower(s)[k]) == IsJsWhitespace(ToLower(s)[k])
    {
      assert ToLower(s)[k] == LowerChar(s[k]);
    }
  }

  lemma NormalizersAgree(s: string)
    requires BlanksAgree(s)
    ensures JsNormalize(s) == JavaNormalize(s)
  {
    BlanksAgreeLower(s);
    TrimAgree(ToLower(s), IsJsWhitespace, IsJavaBlank);
  }

  /** On lists whose characters Java and JavaScript classify alike as blank,
      the front end and the back end compute the same score. */
  lemma TsMatchesJava(skills: seq<string>, reqs: seq<string>)
    requires forall i :: 0 <= i < |skills| ==> BlanksAgree(skills[i])
    requires forall i :: 0 <= i < |reqs| ==> BlanksAgree(reqs[i])
    ensures CalculateMatchingScoreTs(skills, reqs) == Score(skills, reqs)
  {
    forall i | 0 <= i < |skills|
      ensures JsNormalize(skills[i]) == JavaNormalize(skills[i])
    {
      NormalizersAgree(skills[i]);
    }
    forall i | 0 <= i < |reqs|
      ensures JsNormalize(reqs[i]) == JavaNormalize(reqs[i])
    {
      NormalizersAgree(reqs[i]);
    }
    ScoreAgree(JsNormalize, JavaNormalize, skills, reqs);
  }

  /** The agreement needs its hypothesis: a no-break space is trimmed by the
      browser and kept by Java, so the two matchers disagree on it. */
  lemma TsDiffersFromJava()
    ensures CalculateMatchingScoreTs(["\U{A0}x"], ["x y"]) == 100
    ensures Score(["\U{A0}x"], ["x y"]) == 0
  {
    TsScoresNbsp();
    JavaScoresNbsp();
  }

  lemma TsScoresNbsp()
    ensures CalculateMatchingScoreTs(["\U{A0}x"], ["x y"]) == 100
  {
    NbspJsForm();
    XyJsForm();
    XCoversXy();
    SingleCovered(JsNormalize, "\U{A0}x", "x y");
  }

  lemma XCoversXy() ensures Covers("x", "x y") {
    ContainsPiece("", "x", " y");
    assert "" + "x" + " y" == "x y";
  }

  /** One skill against one requirement it covers: 100. */
  lemma SingleCovered(norm: string -> string, skill: string, req: string)
    requires Covers(norm(skill), norm(req))
    ensures ScoreBy(norm, [skill], [req]) == 100
  {
    assert SomeSkillCovers(norm, [skill], req);
    ScoreAllMatched(norm, [skill], [req]);
  }

  /** One skill against one requirement it does not cover: 0. */
  lemma SingleUncovered(norm: string -> string, skill: string, req: string)
    requires !Covers(norm(skill), norm(req))
    ensures ScoreBy(norm, [skill], [req]) == 0
  {
    assert !SomeSkillCovers(norm, [skill], req);
    ScoreNoneMatched(norm, [skill], [req]);
  }

  lemma JavaScoresNbsp()
    ensures Score(["\U{A0}x"], ["x y"]) == 0
  {
    NbspJavaForm();
    XyJavaForm();
    NotContainsLonger("\U{A0}x", "x y");
    NotContainsMissing("x y", "\U{A0}x", '\U{A0}');
    SingleUncovered(JavaNormalize, "\U{A0}x", "x y");
  }

  lemma NbspJsForm() ensures JsNormalize("\U{A0}x") == "x" {
    JsNormalizeIs("\U{A0}x", "\U{A0}", "x", "");
  }

  lemma XyJsForm() ensures JsNormalize("x y") == "x y" {
    JsNormalizeIs("x y", "", "x y", "");
  }

  lemma NbspJavaForm() ensures JavaNormalize("\U{A0}x") == "\U{A0}x" {
    JavaNormalizeIs("\U{A0}x", "", "\U{A0}x", "");
  }

  lemma XyJavaForm() ensures JavaNormalize("x y") == "x y" {
    JavaNormalizeIs("x y", "", "x y", "");
  }

  /** A string that lacks one of the characters of `sub` does not contain it. */
  lemma NotContainsMissing(s: string, sub: string, c: char)
    requires c in sub && c !in s
    ensures !Contains(s, sub)
  {
  }

  /** The browser's normal form of a string whose lower-case form is a core
      wrapped in white space. */
  lemma JsNormalizeIs(s: string, p: string, t: string, q: string)
    requires ToLower(s) == p + t + q
    requires forall k :: 0 <= k < |p| ==> IsJsWhitespace(p[k])
    requires forall k :: 0 <= k < |q| ==> IsJsWhitespace(q[k])
    requires t != [] && !IsJsWhitespace(t[0]) && !IsJsWhitespace(t[|t| - 1])
    ensures JsNormalize(s) == t
  {
    TrimPadded(p, t, q, IsJsWhitespace);
  }

  /** The same for Java's normal form. */
  lemma JavaNormalizeIs(s: string, p: string, t: string, q: string)
    requires ToLower(s) == p + t + q
    requires forall k :: 0 <= k < |p| ==> IsJavaBlank(p[k])
    requires forall k :: 0 <= k < |q| ==> IsJavaBlank(q[k])
    requires t != [] && !IsJavaBlank(t[0]) && !IsJavaBlank(t[|t| - 1])
    ensures JavaNormalize(s) == t
  {
    TrimPadded(p, t, q, IsJavaBlank);
  }

  // --- the behaviour the front end's unit tests describe ------------------

  /** Without requirements the score is 0. */
  lemma TsNoRequirements(skills: seq<string>)
    ensures CalculateMatchingScoreTs(skills, []) == 0
  {
  }

  /** Case is ignored: strings that agree once lower-cased normalise alike. */
  lemma TsIgnoresCase(s: string, t: string)
    requires ToLower(s) == ToLower(t)
    ensures JsNormalize(s) == JsNormalize(t)
  {
  }

  /** Surrounding white space is ignored: padding a string with white space
      does not change its normal form. */
  lemma TsIgnoresPadding(p: string, s: string, q: string)
    requires forall k :: 0 <= k < |p| ==> IsJsWhitespace(p[k])
    requires forall k :: 0 <= k < |q| ==> IsJsWhitespace(q[k])
    ensures JsNormalize(p + s + q) == JsNormalize(s)
  {
    ToLowerAppend(p + s, q);
    ToLowerAppend(p, s);
    assert ToLower(p) == p && ToLower(q) == q;
    TrimAround(p, ToLower(s), q, IsJsWhitespace);
  }

  /** Hence lists that normalise alike position by position get the same
      score, whatever their case and padding. */
  lemma TsScoreByForms(skills: seq<string>, skills': seq<string>, reqs: seq<string>, reqs': seq<string>)
    requires SameForms(JsNormalize, skills, skills') && SameForms(JsNormalize, reqs, reqs')
    ensures CalculateMatchingScoreTs(skills, reqs) == CalculateMatchingScoreTs(skills', reqs')
  {
    ScoreSameForms(JsNormalize, skills, skills', reqs, reqs');
  }

  /** A requirement that normalises like some skill is matched. */
  lemma SameNormalFormCovers(norm: string -> string, skills: seq<string>, k: nat, req: string)
    requires k < |skills| && norm(skills[k]) == norm(req)
    ensures SomeSkillCovers(norm, skills, req)
  {
    ContainsSelf(norm(req));
    assert Covers(norm(skills[k]), norm(req));
    SomeSkillCoversIff(norm, skills, req);
  }

  /** Two requirements, only the first of them covered: 50. */
  lemma HalfCovered(norm: string -> string, skills: seq<string>, a: string, b: string)
    requires SomeSkillCovers(norm, skills, a)
    requires !SomeSkillCovers(norm, skills, b)
    ensures ScoreBy(norm, skills, [a, b]) == 50
  {
    assert [a, b][1..] == [b];
    assert MatchedCount(norm, skills, [a, b]) == 1;
  }

  /** "JavaScript", "React", "TypeScript" against "JavaScript", "React": 100. */
  lemma TsAllMatch()
    ensures CalculateMatchingScoreTs(["JavaScript", "React", "TypeScript"], ["JavaScript", "React"]) == 100
  {
    ListedRequirements(JsNormalize, ["JavaScript", "React", "TypeScript"], "JavaScript", "React", 0, 1);
  }

  /** Two requirements that both appear among the skills: 100. */
  lemma ListedRequirements(norm: string -> string, skills: seq<string>, a: string, b: string, ka: nat, kb: nat)
    requires ka < |skills| && skills[ka] == a
    requires kb < |skills| && skills[kb] == b
    ensures ScoreBy(norm, skills, [a, b]) == 100
  {
    SameNormalFormCovers(norm, skills, ka, a);
    SameNormalFormCovers(norm, skills, kb, b);
    ScoreAllMatched(norm, skills, [a, b]);
  }

  // ---------------------------------------------------------------------
  // Status colours
  // ---------------------------------------------------------------------

  const Neutral: string := "bg-gray-100 text-gray-800"

  /** The palette's own entries: status name to CSS classes. */
  const Palette: map<string, string> := map[
    "PENDING" := "bg-yellow-100 text-yellow-800",
    "INTERVIEW_SCHEDULED" := "bg-blue-100 text-blue-800",
    "ACCEPTED" := "bg-green-100 text-green-800",
    "REJECTED" := "bg-red-100 text-red-800",
    "ACTIVE" := "bg-green-100 text-green-800",
    "CLOSED" := Neutral,
    "SCHEDULED" := "bg-blue-100 text-blue-800",
    "COMPLETED" := "bg-green-100 text-green-800",
    "CANCELLED" := "bg-red-100 text-red-800"
  ]

  /** The property names every object literal inherits from `Object.prototype`. */
  const Inherited: set<string> := {
    "constructor", "__proto__", "toString", "toLocaleString", "valueOf",
    "hasOwnProperty", "isPrototypeOf", "propertyIsEnumerable",
    "__defineGetter__", "__defineSetter__", "__lookupGetter__", "__lookupSetter__"
  }

  /** What a property read on the palette object can yield. */
  datatype JsValue = JsString(text: string) | JsFunction(name: string) | JsObject

  /** `colors[status] || default` as JavaScript evaluates it: an own entry,
      else an inherited member of `Object.prototype` (a function, or the
      prototype object itself for `__proto__`), else `undefined`, which is
      falsy and gives way to the default. */
  function GetStatusColorAsWritten(status: string): (r: JsValue)
    ensures status in Palette ==> r == JsString(Palette[status])
    ensures status !in Palette && status !in Inherited ==> r == JsString(Neutral)
    ensures status in Inherited ==> !r.JsString?
  {
    if status in Palette then JsString(Palette[status])
    else if status == "__proto__" then JsObject
    else if status in Inherited then JsFunction(status)
    else JsString(Neutral)
  }

  /** The palette read through its own entries only: every status name gets
      a class string. */
  function GetStatusColor(status: string): (r: string)
    ensures status in Palette ==> r == Palette[status]
    ensures status !in Palette ==> r == Neutral
  {
    if status in Palette then Palette[status] else Neutral
  }

  /** The declared return type is broken by inherited names: asking for the
      colour of "toString" yields a function, not a class string. */
  lemma StatusColorInheritedName()
    ensures GetStatusColorAsWritten("toString") == JsFunction("toString")
    ensures GetStatusColorAsWritten("__proto__") == JsObject
  {
    assert "toString" !in Palette;
    assert "__proto__" !in Palette;
  }

  /** The corrected lookup agrees with the code as written on every name that
      is not inherited, and always yields one of the five palette classes. */
  lemma GetStatusColorAgrees(status: string)
    ensures status !in Inherited ==> GetStatusColorAsWritten(status) == JsString(GetStatusColor(status))
    ensures GetStatusColor(status) in {
      "bg-yellow-100 text-yellow-800", "bg-blue-100 text-blue-800",
      "bg-green-100 text-green-800", "bg-red-100 text-red-800", Neutral
    }
  {
  }

  /** The palette entries the front end's unit tests fix. */
  lemma StatusColorCases()
    ensures GetStatusColor("PENDING") == "bg-yellow-100 text-yellow-800"
    ensures GetStatusColor("INTERVIEW_SCHEDULED") == "bg-blue-100 text-blue-800"
    ensures GetStatusColor("ACCEPTED") == "bg-green-100 text-green-800"
    ensures GetStatusColor("REJECTED") == "bg-red-100 text-red-800"
    ensures GetStatusColor("ACTIVE") == "bg-green-100 text-green-800"
    ensures GetStatusColor("CLOSED") == "bg-gray-100 text-gray-800"
    ensures GetStatusColor("SCHEDULED") == "bg-blue-100 text-blue-800"
    ensures GetStatusColor("COMPLETED") == "bg-green-100 text-green-800"
    ensures GetStatusColor("CANCELLED") == "bg-red-100 text-red-800"
    ensures GetStatusColor("UNKNOWN") == "bg-gray-100 text-gray-800"
  {
    assert "UNKNOWN" !in Palette;
  }
}
