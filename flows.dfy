/**
 * The decision logic of the renew and start steps for one server, over the
 * page snapshots the browser yields at each point where the automation
 * looks at the page. A snapshot of `None` stands for a browser call that
 * raised there.
 */
module Flows {
  import opened Wrappers
  import opened Text
  import opened Tags
  import opened Browser
  import opened Resolver

  /**
   * The tag a step recorded, and whether it went for an enabled control:
   * the click sequence (hover, click, reading the page) was begun, whether
   * or not a call in it raised.
   */
  datatype Attempt = Attempt(tag: string, attempted: bool)

  /** Phrases that mean the renewal was refused or failed. */
  const ErrorPatterns: seq<string> := [
    "already renewed", "can't renew", "only once",
    "이미", "한번", "불가능", "already added",
    "failed", "error", "오류"]

  /** Phrases that mean time was added. */
  const SuccessPatterns: seq<string> := ["success", "성공", "added", "추가됨", "시간이 추가", "추가되었습니다"]

  /** Phrases in the page that mean the server is running. */
  const RunningKeywords: seq<string> := ["started", "running", "启动", "시작"]

  /** Some pattern occurs in the text, both compared lower-cased. */
  predicate AnyPattern(text: string, patterns: seq<string>) {
    exists k | 0 <= k < |patterns| :: Contains(Lower(text), Lower(patterns[k]))
  }

  /**
   * Classify the page content after a renew click. An error pattern wins over
   * a success pattern; with neither, the outcome says whether the content
   * changed at all.
   */
  function ClassifyRenew(before: string, after: string): (tag: string)
    ensures tag in RenewClassifications
    ensures AnyPattern(after, ErrorPatterns) ==> tag == AlreadyRenewed
    ensures tag == RenewSuccess <==> !AnyPattern(after, ErrorPatterns) && AnyPattern(after, SuccessPatterns)
    ensures tag == RenewUnknownChanged <==>
      !AnyPattern(after, ErrorPatterns) && !AnyPattern(after, SuccessPatterns) && before != after
    ensures tag == RenewNoChange <==>
      !AnyPattern(after, ErrorPatterns) && !AnyPattern(after, SuccessPatterns) && before == after
  {
    if AnyPattern(after, ErrorPatterns) then AlreadyRenewed
    else if AnyPattern(after, SuccessPatterns) then RenewSuccess
    else if before != after then RenewUnknownChanged
    else RenewNoChange
  }

  /** A pattern written in the content in any letter case is found. */
  lemma {:induction false} PatternFound(prefix: string, word: string, suffix: string, patterns: seq<string>, k: nat)
    requires k < |patterns| && Lower(word) == Lower(patterns[k])
    ensures AnyPattern(prefix + word + suffix, patterns)
  {
    LowerAppend(prefix + word, suffix);
    LowerAppend(prefix, word);
    ContainsInfix(Lower(prefix), Lower(patterns[k]), Lower(suffix));
  }

  /**
   * Precedence: a page that says "error" somewhere is classified as already
   * renewed, even when it also says "success".
   */
  lemma ErrorBeatsSuccess(before: string, a: string, b: string, c: string)
    ensures ClassifyRenew(before, a + "error" + b + "success" + c) == AlreadyRenewed
    ensures AnyPattern(a + "error" + b + "success" + c, SuccessPatterns)
  {
    var after := a + "error" + b + "success" + c;
    assert after == a + "error" + (b + "success" + c);
    assert Lower("error") == Lower(ErrorPatterns[8]);
    PatternFound(a, "error", b + "success" + c, ErrorPatterns, 8);
    assert after == (a + "error" + b) + "success" + c;
    assert Lower("success") == Lower(SuccessPatterns[0]);
    PatternFound(a + "error" + b, "success", c, SuccessPatterns, 0);
  }

  /**
   * `click_renew_button_and_check`: click an enabled button and classify
   * the content before the click against the content after it. `after` is
   * `None` when hovering, clicking or reading the page raised.
   */
  function ClickRenewAndCheck(button: Control, before: string, after: Option<Page>): (r: Attempt)
    ensures r.attempted == button.enabled
    ensures !button.enabled ==> r.tag == RenewButtonDisabled
    ensures button.enabled && after.None? ==> r.tag == RenewClickError
    ensures button.enabled && after.Some? ==> r.tag in RenewClassifications
    ensures button.enabled && after.Some? ==> r.tag == ClassifyRenew(before, after.value.content)
  {
    if button.enabled then
      match after
      case None => Attempt(RenewClickError, true)
      case Some(p) => Attempt(ClassifyRenew(before, p.content), true)
    else Attempt(RenewButtonDisabled, false)
  }

  /**
   * The snapshots of the renew step: after navigating to the server page,
   * after the one reload made for a disabled button, and after the click.
   */
  datatype RenewPages = RenewPages(loaded: Option<Page>, reloaded: Option<Page>, afterClick: Option<Page>)

  /**
   * The control the renew step clicks and the content it was found on: the
   * button of the loaded page when enabled, otherwise the button of the
   * reloaded page when that one is enabled.
   */
  function RenewTarget(pages: RenewPages): Option<(Control, string)> {
    if pages.loaded.None? then None
    else
      match FindRenewButton(pages.loaded.value)
      case None => None
      case Some(b) =>
        if b.enabled then Some((b, pages.loaded.value.content))
        else if pages.reloaded.None? then None
        else
          match FindRenewButton(pages.reloaded.value)
          case None => None
          case Some(b2) => if b2.enabled then Some((b2, pages.reloaded.value.content)) else None
  }

  /**
   * `renew_server`. No button gives `no_renew_button`; a disabled button that
   * is still missing or disabled after one reload gives
   * `renew_button_disabled`; neither path clicks. A click is attempted exactly
   * when an enabled button was found, and then the outcome is the
   * classification of the content around the click.
   */
  function RenewServer(pages: RenewPages): (r: Attempt)
    ensures r.tag in RenewTags
    ensures r.attempted <==> RenewTarget(pages).Some?
    ensures r.attempted <==> r.tag in RenewClassifications || r.tag == RenewClickError
    ensures pages.loaded.Some? && FindRenewButton(pages.loaded.value).None? ==> r == Attempt(NoRenewButton, false)
    ensures RenewTarget(pages).Some? && pages.afterClick.Some? ==>
      r.tag == ClassifyRenew(RenewTarget(pages).value.1, pages.afterClick.value.content)
    ensures (pages.loaded.Some? && FindRenewButton(pages.loaded.value).Some? && RenewTarget(pages).None?
             && pages.reloaded.Some?) ==> r == Attempt(RenewButtonDisabled, false)
    ensures pages.loaded.None? ==> r == Attempt(RenewError, false)
    ensures (pages.loaded.Some? && FindRenewButton(pages.loaded.value).Some?
             && !FindRenewButton(pages.loaded.value).value.enabled && pages.reloaded.None?) ==>
      r == Attempt(RenewError, false)
    ensures RenewTarget(pages).Some? && pages.afterClick.None? ==> r.tag == RenewClickError
  {
    match pages.loaded
    case None => Attempt(RenewError, false)
    case Some(page) =>
      match FindRenewButton(page)
      case None => Attempt(NoRenewButton, false)
      case Some(button) =>
        if !button.enabled then
          match pages.reloaded
          case None => Attempt(RenewError, false)
          case Some(again) =>
            match FindRenewButton(again)
            case None => Attempt(RenewButtonDisabled, false)
            case Some(b2) =>
              if !b2.enabled then Attempt(RenewButtonDisabled, false)
              else ClickRenewAndCheck(b2, again.content, pages.afterClick)
        else ClickRenewAndCheck(button, page.content, pages.afterClick)
  }

  /**
   * Refinding the start button after the click: a now-disabled button, or a
   * running keyword in the lower-cased content, means the server started.
   */
  function ClassifyStart(refound: Option<Control>, content: string): (tag: string)
    ensures tag == StartSuccess || tag == StartUnknown
    ensures tag == StartSuccess <==>
      (refound.Some? && !refound.value.enabled)
      || exists k | 0 <= k < |RunningKeywords| :: Contains(Lower(content), RunningKeywords[k])
  {
    assert RunningKeywords[0] == "started" && RunningKeywords[1] == "running";
    assert RunningKeywords[2] == "启动" && RunningKeywords[3] == "시작";
    if refound.Some? && !refound.value.enabled then StartSuccess
    else if Contains(Lower(content), "started") || Contains(Lower(content), "running")
         || Contains(Lower(content), "启动") || Contains(Lower(content), "시작")
    then StartSuccess
    else StartUnknown
  }

  /**
   * The label of the Korean start control is itself a running keyword: a
   * page whose content still shows that label is classified as started,
   * whatever state the refound button is in.
   */
  lemma KoreanStartLabelReadsAsStarted(refound: Option<Control>, a: string, b: string)
    ensures ClassifyStart(refound, a + StartKeywords[1] + b) == StartSuccess
  {
    LowerAppend(a + "시작", b);
    LowerAppend(a, "시작");
    assert Lower("시작") == "시작";
    ContainsInfix(Lower(a), "시작", Lower(b));
  }

  /**
   * The snapshots of the start step: after the reload that begins it, when
   * the button is looked up again after a disabled first lookup, and after
   * the click.
   */
  datatype StartPages = StartPages(reloaded: Option<Page>, retried: Page, afterClick: Option<Page>)

  /** The tail of `start_server` once a button is in hand: click it if enabled and classify. */
  function StartClick(button: Control, afterClick: Option<Page>): (r: Attempt)
    ensures r.attempted == button.enabled
    ensures !button.enabled ==> r.tag == AlreadyStarted
    ensures button.enabled && afterClick.None? ==> r.tag == StartError
    ensures button.enabled && afterClick.Some? ==>
      r.tag == ClassifyStart(FindStartButton(afterClick.value), afterClick.value.content)
  {
    if button.enabled then
      match afterClick
      case None => Attempt(StartError, true)
      case Some(p) => Attempt(ClassifyStart(FindStartButton(p), p.content), true)
    else Attempt(AlreadyStarted, false)
  }

  /** The button `start_server` ends up clicking: the first lookup's if enabled, else the retry's if enabled. */
  function StartTarget(pages: StartPages): Option<Control> {
    if pages.reloaded.None? then None
    else
      match FindStartButton(pages.reloaded.value)
      case None => None
      case Some(b) =>
        if b.enabled then Some(b)
        else
          match FindStartButton(pages.retried)
          case None => None
          case Some(b2) => if b2.enabled then Some(b2) else None
  }

  /**
   * `start_server`. A button that is disabled on both lookups gives
   * `already_started` without a click. A click is attempted exactly when an
   * enabled button was found; after it the outcome is `start_success` or
   * `start_unknown` as the refound button and the page content say.
   */
  function StartServer(pages: StartPages): (r: Attempt)
    ensures r.tag in StartTags
    ensures r.attempted <==> StartTarget(pages).Some?
    ensures r.attempted <==> r.tag in {StartSuccess, StartUnknown} || (r.tag == StartError && pages.reloaded.Some?)
    ensures r.tag == AlreadyStarted <==>
      pages.reloaded.Some? && FindStartButton(pages.reloaded.value).Some? && StartTarget(pages).None?
    ensures StartTarget(pages).Some? && pages.afterClick.Some? ==>
      r.tag == ClassifyStart(FindStartButton(pages.afterClick.value), pages.afterClick.value.content)
    ensures pages.reloaded.None? ==> r == Attempt(StartError, false)
    ensures pages.reloaded.Some? && FindStartButton(pages.reloaded.value).None? ==> r == Attempt(NoStartButton, false)
    ensures StartTarget(pages).Some? && pages.afterClick.None? ==> r.tag == StartError
  {
    match pages.reloaded
    case None => Attempt(StartError, false)
    case Some(page) =>
      match FindStartButton(page)
      case None => Attempt(NoStartButton, false)
      case Some(button) =>
        if !button.enabled then
          match FindStartButton(pages.retried)
          case None => Attempt(AlreadyStarted, false)
          case Some(b2) =>
            if !b2.enabled then Attempt(AlreadyStarted, false)
            else StartClick(b2, pages.afterClick)
        else StartClick(button, pages.afterClick)
  }
}
