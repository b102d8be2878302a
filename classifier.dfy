/**
 * The pure helpers of the task store: the model and review classifiers, the context files a
 * review level asks for, and the size cap on saved artifacts.
 */
module Classifier {
  import opened Wrappers
  import opened JsText
  import opened JsNumber
  import opened CommaLists
  import opened Tasks

  // ---------------------------------------------------------------------------------------------
  // inferModel, inferReviews, inferContextFiles

  /** `(files_affected || '').split(',').filter(s => s.trim()).length` */
  function FileCount(t: Task): nat {
    CountNonBlank(Split(OrEmpty(t.filesAffected), ","))
  }

  /** The classifiers' file count is the length of the task's parsed file list. */
  lemma FileCountIsFiles(t: Task)
    ensures FileCount(t) == |Files(t)|
  {
    CountNonBlankIsFileCount(Split(OrEmpty(t.filesAffected), ","));
  }

  /** `(description || '').length` */
  function DescLength(t: Task): nat {
    |OrEmpty(t.description)|
  }

  /** The small-task test both classifiers start with: at most one file and a short description. */
  predicate Small(t: Task) {
    FileCount(t) <= 1 && DescLength(t) < 100
  }

  /**
   * `/^(Fix:|Follow-up:)/i.test(title)`. Without the `u` flag the regular expression folds case by
   * upper-casing and never maps a non-ASCII character onto an ASCII one, so only ASCII letters
   * match case-insensitively here.
   */
  predicate FixTitle(title: string) {
    StartsWith(ToLower(title), "fix:") || StartsWith(ToLower(title), "follow-up:")
  }

  /** `inferModel(task)` */
  function InferModel(t: Task): (m: string)
    ensures m == "haiku" || m == "opus" || m == "sonnet"
  {
    if Small(t) then "haiku"
    else if FixTitle(t.title) then "haiku"
    else if t.priority == Critical || FileCount(t) >= 5 then "opus"
    else "sonnet"
  }

  /**
   * `haiku` for a small task (at most one parsed file, description under 100 characters) or a
   * fix title; otherwise `opus` for a critical task or one touching five files or more; otherwise
   * `sonnet`.
   */
  lemma InferModelFacts(t: Task)
    ensures InferModel(t) == "haiku" <==> (|Files(t)| <= 1 && DescLength(t) < 100) || FixTitle(t.title)
    ensures InferModel(t) == "opus" <==>
      !((|Files(t)| <= 1 && DescLength(t) < 100) || FixTitle(t.title)) && (t.priority == Critical || |Files(t)| >= 5)
    ensures InferModel(t) == "sonnet" <==>
      !((|Files(t)| <= 1 && DescLength(t) < 100) || FixTitle(t.title)) && t.priority != Critical && |Files(t)| < 5
  {
    FileCountIsFiles(t);
    var small := |Files(t)| <= 1 && DescLength(t) < 100;
    assert Small(t) == small;
    if small || FixTitle(t.title) {
      assert InferModel(t) == "haiku";
    } else if t.priority == Critical || |Files(t)| >= 5 {
      assert InferModel(t) == "opus";
    } else {
      assert InferModel(t) == "sonnet";
    }
  }

  /** `'{{SECURITY_KEYWORDS}}'.split(',').map(s => s.trim().toLowerCase())`, the template text a parameter. */
  function SecurityKeywords(template: string): seq<string> {
    var parts := Split(template, ",");
    seq(|parts|, i requires 0 <= i < |parts| => ToLower(Trim(parts[i])))
  }

  const UxKeywords: seq<string> := ["page", "component", "section", "layout", "design", "content", "navigation", "ux"]

  /** `((title || '') + ' ' + (description || '')).toLowerCase()` */
  function Text(t: Task): string {
    ToLower(t.title + " " + OrEmpty(t.description))
  }

  /** `keywords.some(kw => text.includes(kw))` */
  predicate AnyIn(text: string, keywords: seq<string>) {
    exists k :: k in keywords && Contains(text, k)
  }

  /** A fix: a fix title, or the text mentions `test`. */
  predicate IsFix(t: Task) {
    FixTitle(t.title) || Contains(Text(t), "test")
  }

  /** `qa`, then `security` and `pm` when pushed. */
  function Dims(security: bool, pm: bool): seq<string> {
    ["qa"] + (if security then ["security"] else []) + (if pm then ["pm"] else [])
  }

  /** The comma list of dimensions splits back into them, and it is never `none`; it is `qa` alone iff nothing was pushed. */
  lemma DimsJoin(security: bool, pm: bool)
    ensures var dims := Dims(security, pm);
      && SplitOn(Join(dims, ","), ",") == dims
      && dims[0] == "qa"
      && ("security" in dims <==> security)
      && ("pm" in dims <==> pm)
      && Join(dims, ",") != "none"
      && (Join(dims, ",") == "qa" <==> !security && !pm)
  {
    var dims := Dims(security, pm);
    assert dims[0] == "qa";
    assert forall p :: p in dims ==> p == "qa" || p == "security" || p == "pm";
    SplitJoin(dims, ',');
    var joined := Join(dims, ",");
    if joined == "none" {
      SplitOnUnseparated("none", ',');
    }
    if joined == "qa" {
      SplitOnUnseparated("qa", ',');
      assert dims == ["qa"];
    }
    if !security && !pm {
      assert dims == ["qa"];
    }
  }

  /** The review dimensions of a task that is not small, in the order they are pushed. */
  function ReviewDims(t: Task, keywords: seq<string>): seq<string> {
    Dims(AnyIn(Text(t), keywords), !IsFix(t) && AnyIn(Text(t), UxKeywords))
  }

  /** `inferReviews(task)`, with the security keyword template as a parameter. */
  function InferReviews(t: Task, template: string): string {
    if Small(t) then "none" else Join(ReviewDims(t, SecurityKeywords(template)), ",")
  }

  /**
   * `inferReviews` is `none` exactly for a small task. Otherwise its comma list starts with `qa`,
   * holds `security` iff a security keyword occurs in the lower-cased title and description, and
   * holds `pm` iff the task is no fix and a UX keyword occurs; splitting it on `,` gives back
   * exactly those dimensions.
   */
  lemma InferReviewsFacts(t: Task, template: string)
    ensures var r := InferReviews(t, template);
      && (r == "none" <==> Small(t))
      && (!Small(t) ==>
            var dims := SplitOn(r, ",");
            && dims == ReviewDims(t, SecurityKeywords(template))
            && dims[0] == "qa"
            && ("security" in dims <==> AnyIn(Text(t), SecurityKeywords(template)))
            && ("pm" in dims <==> !IsFix(t) && AnyIn(Text(t), UxKeywords)))
  {
    DimsJoin(AnyIn(Text(t), SecurityKeywords(template)), !IsFix(t) && AnyIn(Text(t), UxKeywords));
  }

  /** An empty keyword (a doubled or trailing comma in the template) occurs in every text: every task that is not small gets a security review. */
  lemma EmptyKeywordMatchesAll(t: Task, template: string)
    requires "" in SecurityKeywords(template)
    ensures "security" in ReviewDims(t, SecurityKeywords(template))
  {
    var text := Text(t);
    assert OccursAt(text, "", 0);
    assert Contains(text, "");
    assert AnyIn(text, SecurityKeywords(template));
  }

  /** A task with no reviews is always given the cheapest model. */
  lemma NoReviewsHaiku(t: Task, template: string)
    requires InferReviews(t, template) == "none"
    ensures InferModel(t) == "haiku"
  {
    InferReviewsFacts(t, template);
  }

  /** `inferContextFiles(reviews)` */
  function InferContextFiles(reviews: string): (files: seq<string>)
    ensures "requirements-summary.md" in files
    ensures "design-system.md" in files <==> reviews != "none"
    ensures "project-overview.md" in files <==> reviews != "none" && reviews != "qa"
  {
    if reviews == "none" then ["requirements-summary.md"]
    else if reviews == "qa" then ["requirements-summary.md", "design-system.md"]
    else ["project-overview.md", "design-system.md", "requirements-summary.md"]
  }

  /**
   * On the classifier's own output: a small task reads only the requirements summary, a task
   * reviewed by `qa` alone adds the design system, and one with a security or product review
   * also reads the project overview.
   */
  lemma ContextOfInferred(t: Task, template: string)
    ensures var files := InferContextFiles(InferReviews(t, template));
      && ("design-system.md" in files <==> !Small(t))
      && ("project-overview.md" in files <==> !Small(t) && |ReviewDims(t, SecurityKeywords(template))| > 1)
  {
    DimsJoin(AnyIn(Text(t), SecurityKeywords(template)), !IsFix(t) && AnyIn(Text(t), UxKeywords));
  }

  // ---------------------------------------------------------------------------------------------
  // saveArtifact truncation

  const MaxArtifactSize: nat := 51200

  /** `(length / 1024).toFixed(0)`: the quotient is exact in binary, and `toFixed` rounds halves up. */
  function KiloBytes(length: nat): (kb: nat)
    ensures 1024 * kb <= length + 512 < 1024 * kb + 1024
  {
    (length + 512) / 1024
  }

  function TruncationMarker(length: nat): string {
    "\n\n[TRUNCATED \U{2014} original was " + NatToString(KiloBytes(length)) + " KB]"
  }

  /** The content `saveArtifact` stores: content over the cap keeps its first 51200 characters and gains a marker. */
  function Truncate(content: Option<string>): (r: Option<string>)
    ensures !(Truthy(content) && |content.value| > MaxArtifactSize) ==> r == content
    ensures Truthy(content) && |content.value| > MaxArtifactSize ==>
      && r.Some?
      && |r.value| == MaxArtifactSize + |TruncationMarker(|content.value|)|
      && r.value[..MaxArtifactSize] == content.value[..MaxArtifactSize]
      && r.value[MaxArtifactSize..] == TruncationMarker(|content.value|)
  {
    if Truthy(content) && |content.value| > MaxArtifactSize then
      Some(content.value[..MaxArtifactSize] + TruncationMarker(|content.value|))
    else content
  }

  /** Truncated content names at least 50 KB, and never more than the original length rounded to the nearest KB. */
  lemma TruncationFacts(content: Option<string>)
    requires Truthy(content) && |content.value| > MaxArtifactSize
    ensures KiloBytes(|content.value|) >= 50
    ensures StartsWith(Truncate(content).value, content.value[..MaxArtifactSize])
  {
  }
}
