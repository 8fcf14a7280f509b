/**
 * Locating the renew and start controls. The role-specific selector lists
 * are evaluated by the browser (their first visible hit is part of the
 * page); when they miss, a text search over the page's buttons runs, and
 * after it a second one over the "primary action" styled elements.
 */
module Resolver {
  import opened Wrappers
  import opened Text
  import opened Browser

  /** Fallback keywords of the renew lookup, matched as substrings. */
  const RenewKeywords: seq<string> := ["시간", "Renew", "Add", "추가"]
  /** Fallback keywords of the start lookup, matched exactly. */
  const StartKeywords: seq<string> := ["Start", "시작"]

  /** Exact mode: the text is one of the keywords; otherwise some keyword occurs in it. */
  predicate TextMatches(text: string, keywords: seq<string>, exact: bool) {
    if exact then exists k | 0 <= k < |keywords| :: keywords[k] == text
    else exists k | 0 <= k < |keywords| :: Contains(text, keywords[k])
  }

  /** A control the text search accepts: visible, and its stripped text matches. */
  predicate Hit(c: Control, keywords: seq<string>, exact: bool) {
    c.visible && TextMatches(Strip(c.text), keywords, exact)
  }

  /** The first index at or after `i` holding a hit. */
  function FirstHitFrom(cs: seq<Control>, keywords: seq<string>, exact: bool, i: nat): Option<nat>
    decreases |cs| - i
  {
    if i >= |cs| then None
    else if Hit(cs[i], keywords, exact) then Some(i)
    else FirstHitFrom(cs, keywords, exact, i + 1)
  }

  lemma {:induction false} FirstHitFromSpec(cs: seq<Control>, keywords: seq<string>, exact: bool, i: nat)
    ensures var r := FirstHitFrom(cs, keywords, exact, i);
      && (r.Some? ==> i <= r.value < |cs| && Hit(cs[r.value], keywords, exact)
                      && forall j | i <= j < r.value :: !Hit(cs[j], keywords, exact))
      && (r.None? <==> forall j | i <= j < |cs| :: !Hit(cs[j], keywords, exact))
    decreases |cs| - i
  {
    if i < |cs| && !Hit(cs[i], keywords, exact) {
      FirstHitFromSpec(cs, keywords, exact, i + 1);
    }
  }

  /** The index of the first hit in document order, if any. */
  function FirstHit(cs: seq<Control>, keywords: seq<string>, exact: bool): (r: Option<nat>)
    ensures r.Some? ==> r.value < |cs| && Hit(cs[r.value], keywords, exact)
    ensures r.Some? ==> forall j | 0 <= j < r.value :: !Hit(cs[j], keywords, exact)
    ensures r.None? <==> forall j | 0 <= j < |cs| :: !Hit(cs[j], keywords, exact)
  {
    FirstHitFromSpec(cs, keywords, exact, 0);
    FirstHitFrom(cs, keywords, exact, 0)
  }

  /**
   * What the two text-search passes return for a page: a visible control
   * whose stripped text matches, in exact mode one of the keywords, in
   * substring mode a text holding some keyword; nothing exactly when
   * neither pass has a hit.
   */
  function ResolveByText(page: Page, keywords: seq<string>, exact: bool): (r: Option<Control>)
    ensures r.Some? ==> r.value.visible
    ensures r.Some? && exact ==> Strip(r.value.text) in keywords
    ensures r.Some? && !exact ==> exists k | 0 <= k < |keywords| :: Contains(Strip(r.value.text), keywords[k])
    ensures r.None? <==>
      && (forall j | 0 <= j < |page.buttons| :: !Hit(page.buttons[j], keywords, exact))
      && (forall j | 0 <= j < |page.styled| :: !Hit(page.styled[j], keywords, exact))
  {
    match FirstHit(page.buttons, keywords, exact)
    case Some(i) => Some(page.buttons[i])
    case None =>
      match FirstHit(page.styled, keywords, exact)
      case Some(i) => Some(page.styled[i])
      case None => None
  }

  /**
   * The text-search fallback: scan the buttons in order and return the first
   * visible one whose stripped text matches; failing that, scan the styled
   * elements the same way; failing that, report nothing.
   */
  method FindButtonAlternativeMethods(page: Page, keywords: seq<string>, exact: bool) returns (button: Option<Control>)
    ensures button == ResolveByText(page, keywords, exact)
  {
    var all := page.buttons;
    var i := 0;
    while i < |all|
      invariant 0 <= i <= |all|
      invariant FirstHitFrom(all, keywords, exact, i) == FirstHitFrom(all, keywords, exact, 0)
    {
      var b := all[i];
      if b.visible {
        var text := Strip(b.text);
        if TextMatches(text, keywords, exact) {
          return Some(b);
        }
      }
      i := i + 1;
    }
    var primary := page.styled;
    if |primary| > 0 {
      var j := 0;
      while j < |primary|
        invariant 0 <= j <= |primary|
        invariant FirstHitFrom(primary, keywords, exact, j) == FirstHitFrom(primary, keywords, exact, 0)
      {
        var b := primary[j];
        if b.visible {
          var text := Strip(b.text);
          if TextMatches(text, keywords, exact) {
            return Some(b);
          }
        }
        j := j + 1;
      }
    }
    return None;
  }

  /** When some button is a hit, the styled pass never runs: the first button hit is the answer. */
  lemma ButtonPassWins(page: Page, keywords: seq<string>, exact: bool, i: nat)
    requires i < |page.buttons| && Hit(page.buttons[i], keywords, exact)
    requires forall j | 0 <= j < i :: !Hit(page.buttons[j], keywords, exact)
    ensures ResolveByText(page, keywords, exact) == Some(page.buttons[i])
  {
    var f := FirstHit(page.buttons, keywords, exact);
    assert f.Some?;
  }

  /**
   * If every styled element is also one of the buttons, the styled pass can
   * never find what the button pass missed: the result is the button pass's.
   */
  lemma StyledPassRedundantForButtons(page: Page, keywords: seq<string>, exact: bool)
    requires forall j | 0 <= j < |page.styled| :: page.styled[j] in page.buttons
    ensures FirstHit(page.buttons, keywords, exact).None? ==> ResolveByText(page, keywords, exact).None?
  {
    if FirstHit(page.buttons, keywords, exact).None? {
      forall j | 0 <= j < |page.styled| ensures !Hit(page.styled[j], keywords, exact) {
        var n :| 0 <= n < |page.buttons| && page.buttons[n] == page.styled[j];
        assert !Hit(page.buttons[n], keywords, exact);
      }
    }
  }

  /** `find_renew_button`: the selector hit if any, else the substring text search. */
  function FindRenewButton(page: Page): (r: Option<Control>)
    ensures page.renewHit.Some? ==> r == page.renewHit
    ensures page.renewHit.None? ==> r == ResolveByText(page, RenewKeywords, false)
    ensures page.renewHit.None? && r.Some? ==>
      r.value.visible && exists k | 0 <= k < |RenewKeywords| :: Contains(Strip(r.value.text), RenewKeywords[k])
  {
    if page.renewHit.Some? then page.renewHit else ResolveByText(page, RenewKeywords, false)
  }

  /** `find_start_button`: the selector hit if any, else the exact text search. */
  function FindStartButton(page: Page): (r: Option<Control>)
    ensures page.startHit.Some? ==> r == page.startHit
    ensures page.startHit.None? ==> r == ResolveByText(page, StartKeywords, true)
    ensures page.startHit.None? && r.Some? ==>
      r.value.visible && Strip(r.value.text) in StartKeywords
  {
    if page.startHit.Some? then page.startHit else ResolveByText(page, StartKeywords, true)
  }
}
