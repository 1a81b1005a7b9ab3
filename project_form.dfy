/**
 * Validation of the project's front matter (`projectSchema` in
 * src/components/admin/ProjectEditor.tsx).
 *
 * The title needs at least three characters; the slug needs at least three
 * characters and must match `^[a-z0-9-]+$`; the excerpt is any optional
 * string; the status is one of four names. Like the schema library, the
 * validator reports every failed check, in field order, not just the first.
 */
module ProjectForm {
  import opened Wrappers

  /** The publication status of a project. */
  datatype Status = Draft | Published | Hidden | Scheduled

  /** The form's validated values, as submitted with the blocks. */
  datatype ProjectFormValues = ProjectFormValues(
    title: string,
    slug: string,
    excerpt: Option<string>,
    status: Status)

  /** One failed check of the schema. */
  datatype FormError = TitleTooShort | SlugTooShort | SlugNotLowercase | StatusUnknown

  /** The stored name of a status. */
  function StatusName(s: Status): string
  {
    match s
    case Draft => "draft"
    case Published => "published"
    case Hidden => "hidden"
    case Scheduled => "scheduled"
  }

  /** The enum check: exactly the four status names are accepted. */
  function ParseStatus(s: string): (r: Option<Status>)
    ensures r.Some? <==> s in {"draft", "published", "hidden", "scheduled"}
    ensures r.Some? ==> StatusName(r.value) == s
  {
    if s == "draft" then Some(Draft)
    else if s == "published" then Some(Published)
    else if s == "hidden" then Some(Hidden)
    else if s == "scheduled" then Some(Scheduled)
    else None
  }

  /** A character of the class `[a-z0-9-]`. */
  predicate SlugChar(c: char)
  {
    ('a' <= c <= 'z') || ('0' <= c <= '9') || c == '-'
  }

  /** The regular expression `^[a-z0-9-]+$`, matched one character at a time. */
  predicate MatchesSlugPattern(s: string)
  {
    |s| >= 1 && SlugChar(s[0]) && (|s| == 1 || MatchesSlugPattern(s[1..]))
  }

  /** The pattern accepts exactly the non-empty strings drawn from `[a-z0-9-]`. */
  lemma {:induction false} SlugPatternCharacterised(s: string)
    ensures MatchesSlugPattern(s) <==> |s| >= 1 && forall i :: 0 <= i < |s| ==> SlugChar(s[i])
  {
    if |s| > 1 {
      SlugPatternCharacterised(s[1..]);
      assert forall i :: 1 <= i < |s| ==> s[i] == s[1..][i - 1];
    }
  }

  /** The title check: `min(3)`. */
  predicate ValidTitle(title: string)
  {
    |title| >= 3
  }

  /** The slug checks: `min(3)` and the pattern. */
  predicate ValidSlug(slug: string)
  {
    |slug| >= 3 && MatchesSlugPattern(slug)
  }

  /** A slug is valid exactly when it has three or more characters, all from `[a-z0-9-]`. */
  lemma ValidSlugIff(slug: string)
    ensures ValidSlug(slug) <==> |slug| >= 3 && forall i :: 0 <= i < |slug| ==> SlugChar(slug[i])
  {
    SlugPatternCharacterised(slug);
  }

  /** Runs every check of the schema and collects the failures in field order. */
  function Errors(title: string, slug: string, status: string): (errs: seq<FormError>)
    ensures TitleTooShort in errs <==> !ValidTitle(title)
    ensures SlugTooShort in errs <==> |slug| < 3
    ensures SlugNotLowercase in errs <==> !MatchesSlugPattern(slug)
    ensures StatusUnknown in errs <==> ParseStatus(status).None?
    ensures |errs| <= 4
  {
    (if ValidTitle(title) then [] else [TitleTooShort])
    + (if |slug| >= 3 then [] else [SlugTooShort])
    + (if MatchesSlugPattern(slug) then [] else [SlugNotLowercase])
    + (if ParseStatus(status).Some? then [] else [StatusUnknown])
  }

  /**
   * The schema: the raw form fields either pass every check and become the
   * typed form values, or fail with the list of failed checks.
   */
  function Validate(title: string, slug: string, excerpt: Option<string>, status: string)
    : (r: Result<ProjectFormValues, seq<FormError>>)
    ensures r.Success? <==> ValidTitle(title) && ValidSlug(slug) && ParseStatus(status).Some?
    ensures r.Success? ==>
      && r.value.title == title && r.value.slug == slug && r.value.excerpt == excerpt
      && StatusName(r.value.status) == status
    ensures r.Failure? ==> r.error != [] && r.error == Errors(title, slug, status)
  {
    var errs := Errors(title, slug, status);
    if errs == [] then Success(ProjectFormValues(title, slug, excerpt, ParseStatus(status).value))
    else Failure(errs)
  }
}
