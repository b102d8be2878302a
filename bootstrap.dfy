/**
 * The template filling of the project bootstrapper: the values derived from the interview
 * answers, the table of `{{TOKEN}}` replacements, and the replacement pass over a file.
 */
module Bootstrap {
  import opened JsText

  /** The ten interview answers, as typed. */
  datatype Answers = Answers(
    projectName: string,
    description: string,
    techStack: string,
    framework: string,
    styling: string,
    cms: string,
    hosting: string,
    testing: string,
    brandColors: string,
    fonts: string)

  datatype Derived = Derived(securityKeywords: string, brandColors: string, fonts: string)

  const BaseKeywords: string :=
    "API, form, fetch, POST, env, .env, token, auth, secret, cookie, session, input, validation, CSRF, XSS, redirect, sanitize"

  /** The placeholder for a design value left for later. */
  const Tbd: string := "TBD \U{2014} fill in .claude/context/design-system.md"

  /**
   * The placeholder as bootstrap.js spells it: the UTF-8 bytes of the em dash read back as Mac
   * Roman text, three characters in place of one.
   */
  const TbdAsWritten: string := "TBD \U{201A}\U{00C4}\U{00EE} fill in .claude/context/design-system.md"

  /**
   * The security keyword list for a CMS answer: the base list, extended by the CMS name unless
   * the answer lower-cases to `none` (or is empty, which leaves no name to add).
   */
  function KeywordsFor(cms: string): (kws: string)
    ensures ToLower(cms) == "none" || cms == "" ==> kws == BaseKeywords
    ensures ToLower(cms) != "none" && cms != "" ==> kws == BaseKeywords + ", " + cms
    ensures StartsWith(kws, BaseKeywords)
  {
    var cmsName := if ToLower(cms) == "none" then "" else cms;
    if cmsName != "" then BaseKeywords + ", " + cmsName else BaseKeywords
  }

  /** An answer that lower-cases to `skip` is replaced by the placeholder, any other is kept verbatim. */
  function SkipOr(answer: string, placeholder: string): string {
    if ToLower(answer) == "skip" then placeholder else answer
  }

  /** `deriveValues(answers)` as written, with the mis-encoded placeholder. */
  function DeriveValuesAsWritten(a: Answers): Derived {
    Derived(KeywordsFor(a.cms), SkipOr(a.brandColors, TbdAsWritten), SkipOr(a.fonts, TbdAsWritten))
  }

  /** `deriveValues(answers)` with the placeholder spelled with its em dash, as upgrade.js spells it. */
  function DeriveValues(a: Answers): Derived {
    Derived(KeywordsFor(a.cms), SkipOr(a.brandColors, Tbd), SkipOr(a.fonts, Tbd))
  }

  /**
   * A skipped design answer yields the placeholder and any other answer passes through; the
   * keyword list is the base list, plus `, ` and the CMS answer unless that lower-cases to `none`.
   */
  lemma DeriveValuesFacts(a: Answers)
    ensures var d := DeriveValues(a);
      && (d.brandColors == Tbd <==> ToLower(a.brandColors) == "skip" || a.brandColors == Tbd)
      && (d.fonts == Tbd <==> ToLower(a.fonts) == "skip" || a.fonts == Tbd)
      && (d.securityKeywords == BaseKeywords <==> ToLower(a.cms) == "none" || a.cms == "")
  {
    var d := DeriveValues(a);
    if ToLower(a.cms) != "none" && a.cms != "" {
      assert |d.securityKeywords| > |BaseKeywords|;
    }
  }

  /** The placeholder bootstrap.js writes is not the one upgrade.js writes for the same missing value. */
  lemma PlaceholderMismatch(a: Answers)
    requires ToLower(a.brandColors) == "skip"
    ensures DeriveValuesAsWritten(a).brandColors != DeriveValues(a).brandColors
  {
    assert TbdAsWritten[4] != Tbd[4];
  }

  /** The names of the eleven tokens, in the order of the replacement table. */
  const TokenNames: seq<string> := [
    "PROJECT_NAME", "PROJECT_DESCRIPTION", "TECH_STACK", "FRAMEWORK", "STYLING", "CMS",
    "HOSTING", "TESTING", "BRAND_COLORS", "FONTS", "SECURITY_KEYWORDS"]

  /** `{{NAME}}` */
  function Placeholder(name: string): string {
    "{{" + name + "}}"
  }

  /** `buildReplacements(answers, derived)`: token and value pairs in insertion order. */
  function BuildReplacements(a: Answers, d: Derived): (r: seq<(string, string)>)
    ensures |r| == |TokenNames|
    ensures forall i :: 0 <= i < |r| ==> r[i].0 == Placeholder(TokenNames[i])
  {
    [(Placeholder("PROJECT_NAME"), a.projectName),
     (Placeholder("PROJECT_DESCRIPTION"), a.description),
     (Placeholder("TECH_STACK"), a.techStack),
     (Placeholder("FRAMEWORK"), a.framework),
     (Placeholder("STYLING"), a.styling),
     (Placeholder("CMS"), a.cms),
     (Placeholder("HOSTING"), a.hosting),
     (Placeholder("TESTING"), a.testing),
     (Placeholder("BRAND_COLORS"), d.brandColors),
     (Placeholder("FONTS"), d.fonts),
     (Placeholder("SECURITY_KEYWORDS"), d.securityKeywords)]
  }

  /**
   * The table has one entry per token and no token twice; eight values are the answers as typed
   * and the design and keyword values are the derived ones.
   */
  lemma BuildReplacementsFacts(a: Answers, d: Derived)
    ensures var r := BuildReplacements(a, d);
      && (forall i, j :: 0 <= i < j < |r| ==> r[i].0 != r[j].0)
      && (forall i :: 0 <= i < |r| ==> r[i].0 != "")
      && r[0].1 == a.projectName && r[1].1 == a.description && r[2].1 == a.techStack
      && r[3].1 == a.framework && r[4].1 == a.styling && r[5].1 == a.cms
      && r[6].1 == a.hosting && r[7].1 == a.testing
      && r[8].1 == d.brandColors && r[9].1 == d.fonts && r[10].1 == d.securityKeywords
  {
    var r := BuildReplacements(a, d);
    forall i, j | 0 <= i < j < |r| ensures r[i].0 != r[j].0 {
      assert TokenNames[i] != TokenNames[j];
      assert Placeholder(TokenNames[i])[2..|Placeholder(TokenNames[i])| - 2] == TokenNames[i];
      assert Placeholder(TokenNames[j])[2..|Placeholder(TokenNames[j])| - 2] == TokenNames[j];
    }
  }

  /** The content after applying the first k pairs, each to the running result. */
  function ReplaceEach(content: string, pairs: seq<(string, string)>): string
    decreases |pairs|
  {
    if pairs == [] then content
    else
      var last := pairs[|pairs| - 1];
      ReplaceAll(ReplaceEach(content, pairs[..|pairs| - 1]), last.0, last.1)
  }

  /** `replaceTokens(content, replacements)`: `result.split(token).join(value)` for each pair in order. */
  method ReplaceTokens(content: string, replacements: seq<(string, string)>) returns (result: string)
    ensures result == ReplaceEach(content, replacements)
  {
    result := content;
    var i := 0;
    while i < |replacements|
      invariant 0 <= i <= |replacements|
      invariant result == ReplaceEach(content, replacements[..i])
    {
      var (token, value) := replacements[i];
      result := Join(Split(result, token), value);
      assert replacements[..i + 1][..i] == replacements[..i];
      i := i + 1;
    }
    assert replacements[..|replacements|] == replacements;
  }

  /** Each pass replaces every occurrence of its token, scanning from the left, in the running result. */
  lemma ReplaceEachStep(content: string, pairs: seq<(string, string)>, token: string, value: string)
    requires token != ""
    ensures ReplaceEach(content, pairs + [(token, value)]) == Substitute(ReplaceEach(content, pairs), token, value)
  {
    assert (pairs + [(token, value)])[..|pairs|] == pairs;
    ReplaceAllSubstitutes(ReplaceEach(content, pairs), token, value);
  }

  /** Content that contains none of the (non-empty) tokens comes back unchanged. */
  lemma {:induction false} ReplaceEachAbsent(content: string, pairs: seq<(string, string)>)
    requires forall p :: p in pairs ==> p.0 != "" && !Contains(content, p.0)
    ensures ReplaceEach(content, pairs) == content
    decreases |pairs|
  {
    if pairs != [] {
      var init := pairs[..|pairs| - 1];
      var last := pairs[|pairs| - 1];
      assert forall p :: p in init ==> p in pairs;
      ReplaceEachAbsent(content, init);
      assert last in pairs;
      ReplaceAbsent(content, last.0, last.1);
    }
  }
}
