/**
 * The browser as plain data. A page is what the automation can observe of
 * it at one moment: its URL, its HTML content, its `button` elements in
 * document order, the elements matching the "primary action" class
 * selector in document order, and which control (if any) the role-specific
 * selector lists of the renew and start lookups reported as visible.
 */
module Browser {
  import opened Wrappers
  import opened Text

  /** One interactive element, as `is_visible()`, `is_enabled()` and `text_content()` report it. */
  datatype Control = Control(visible: bool, enabled: bool, text: string)

  datatype Page = Page(
    url: string,
    content: string,
    buttons: seq<Control>,
    styled: seq<Control>,
    renewHit: Option<Control>,
    startHit: Option<Control>)

  /**
   * The login heuristic: a URL that mentions neither `login` nor `auth`
   * is taken to belong to an authenticated session.
   */
  predicate IsLoggedIn(url: string) {
    !Contains(url, "login") && !Contains(url, "auth")
  }

  /** The heuristic holds exactly when neither word occurs at any position of the URL. */
  lemma {:induction false} IsLoggedInIff(url: string)
    ensures IsLoggedIn(url) <==> forall i: nat :: !OccursAt(url, "login", i) && !OccursAt(url, "auth", i)
  {
    ContainsIff(url, "login");
    ContainsIff(url, "auth");
  }

  /**
   * Any URL with `auth` or `login` anywhere in it fails the check, including
   * paths such as `/author/` that have nothing to do with signing in.
   */
  lemma {:induction false} NotLoggedInOnMarker(prefix: string, marker: string, suffix: string)
    requires marker == "login" || marker == "auth"
    ensures !IsLoggedIn(prefix + marker + suffix)
  {
    ContainsInfix(prefix, marker, suffix);
  }

  /**
   * `login_with_email`'s own success test after submitting the form: the
   * same URL heuristic, and failure when any step of the form raised (`None`).
   */
  predicate EmailLoginSucceeded(submitted: Option<string>) {
    submitted.Some? && IsLoggedIn(submitted.value)
  }

  /** The phrases `handle_cf_challenge` looks for in the page content. */
  const ChallengeTexts: seq<string> := ["Checking your browser", "Verify", "Security Check", "Cloudflare"]

  /** The text branch of the challenge check: a phrase occurs, ignoring case. */
  predicate ChallengeTextDetected(content: string) {
    exists k | 0 <= k < |ChallengeTexts| :: Contains(Lower(content), Lower(ChallengeTexts[k]))
  }

  lemma {:induction false} LowerAppend(a: string, b: string)
    ensures Lower(a + b) == Lower(a) + Lower(b)
  {
    assert forall i | 0 <= i < |a + b| :: (a + b)[i] == if i < |a| then a[i] else b[i - |a|];
  }

  /**
   * Detection ignores case: content that spells a phrase with any mix of
   * upper- and lower-case letters is detected.
   */
  lemma {:induction false} ChallengeDetectedAnyCase(prefix: string, phrase: string, suffix: string, k: nat)
    requires k < |ChallengeTexts|
    requires Lower(phrase) == Lower(ChallengeTexts[k])
    ensures ChallengeTextDetected(prefix + phrase + suffix)
  {
    LowerAppend(prefix + phrase, suffix);
    LowerAppend(prefix, phrase);
    ContainsInfix(Lower(prefix), Lower(ChallengeTexts[k]), Lower(suffix));
  }

  /** Whether the challenge is detected depends only on the lower-cased content. */
  lemma ChallengeDetectionCaseInsensitive(content: string)
    ensures ChallengeTextDetected(content) == ChallengeTextDetected(Lower(content))
  {
    LowerIdempotent(content);
  }
}
