# Weirdhost auto-renew and start: a verified model of the decision core

`main.py` is a browser-automation script for the Weirdhost hosting panel.
It reads its configuration from environment variables and logs in, either
with a `remember_web` session cookie or with an email/password form. Then,
for each configured server page, it does two things:

- clicks the "add time" (renew) button and classifies what the page says afterwards;
- clicks the Start button and classifies whether the server now runs.

It records a two-field status per server, writes a Markdown status report,
and exits with 1 when some result string carries a failure marker.

This project models the deterministic part of that script in Dafny, with
the browser reduced to plain data. A `Browser.Page` is what the script can
observe at one moment:

- its URL and HTML content;
- its `button` elements in document order;
- the elements matched by the primary-class selector, also in document order;
- the control that the role-specific selector lists reported, if any.

Each step of a server's processing gets the snapshot the browser would yield
at that point. A snapshot of `None` stands for a browser call that raised
there.

Modules, one per file:

- `Text` (`text.dfy`): the Python string operations the script uses, with their laws:
  - `in` on strings, `lower()` and `strip()`;
  - `split` and `join`;
  - `startswith` and `index`.
- `Config` (`config.dfy`): environment lookup with defaults, the credential checks, server-list parsing and the server identifier.
- `Browser` (`browser.dfy`): the page data, the login heuristic and the text branch of the challenge detector.
- `Resolver` (`resolver.dfy`): the two-pass button search by visible text, and the renew and start button lookups.
- `Flows` (`flows.dfy`): the renew decision tree with its four-way classifier, and the start decision tree with its classifier.
- `Results` (`results.dfy`): the per-server result table, an insertion-ordered dictionary.
- `Report` (`report.dfy`): the status messages, table rows, fallback rows, success counters, report text and exit rule.
- `Automation` (`automation.dfy`), with two parts:
  - the class `WeirdhostAuto`: the constructor, `ProcessServer`, `Run` and `WriteReadmeFile`;
  - `Launch`, which models `main`.

The imperative parts of the script stay imperative:

- `process_server` writes a placeholder record and then overwrites its fields in place.
- `run` appends to its result list in a loop.
- `write_readme_file` grows the report text with `+=`. The model grows the table rows and the fallback rows in two loops, each with its own accumulator, and joins them to the header and the counters at the end; the text is the same.
- The button search loops over element indices and returns early.

Each of these methods is proved equal to a function of its inputs. The
properties are proved about those functions.

Some consequences of the code are recorded as lemmas:

- Any URL containing `auth` fails the login check, even `/author/` (`Browser.NotLoggedInOnMarker`).
- The error pattern list contains the bare word `error`. So a page that says "error" anywhere is classified `already_renewed`, even when it also reports success (`Flows.ErrorBeatsSuccess`).
- The Korean start label `시작` is itself a "running" keyword. A page still showing that label is classified `start_success` (`Flows.KoreanStartLabelReadsAsStarted`).
- A server whose own processing raised yields `<id>: error`. That contains `: error`, not `error:`, so it does not make the process exit with 1, unless the server identifier itself ends in `error` (a URL such as `…/server/xerror`): then the line holds `xerror: error`, which contains `error:`. The exact rule is `Automation.RunExitsZeroIff`: the exit status is 0 exactly when the server loop ran and nothing escaped, no server page was a login page, and no identifier contains `login_failed` or `error:` or ends in `error` (`Automation.LineMarkers` gives the per-line markers).
- The guard `if self.server_urls` before parsing changes nothing, because parsing the empty string already gives the empty list (`Config.ParseIsCleanedSplit`). The `len(parts) > 1` fallback to `"unknown"` in the report never fires, because a result kept there contains a colon (`Report.ResultRow` always takes the text after it).
- In `start_server`, the final `else: return "already_started"` cannot be reached in the model, where a control's state is read once: at that point the button in hand is enabled. In the script, `is_enabled()` at main.py:465 is a fresh query after those at lines 454 and 460, so the branch is reachable there. `Flows.StartClick` keeps the branch as written. The same holds for the renew step: `click_renew_button_and_check` queries `is_enabled()` again at main.py:376, so its `renew_button_disabled` branch is reachable in the script, but in the model it cannot follow `Flows.RenewServer`'s own check, which hands over only an enabled button. `Flows.ClickRenewAndCheck` keeps that branch as written.

## Model

| member | source | states |
|---|---|---|
| Config.AuthFromEnv | main.py:24-26 | a credential counts as configured exactly when its variable is set to a non-empty value; an unset variable counts the same as an empty one, and the email form needs both of its variables |
| Automation.WeirdhostAuto.constructor | main.py:17-38 | each setting is the environment value or its default (the default URLs included), the server list is the parsed `WEIRDHOST_SERVER_URLS`, and the result table starts empty |
| Config.ParseServerList | main.py:33-35 | an empty variable gives no servers; every entry is non-empty, equals its own strip and holds no comma |
| Config.CleanPieces | main.py:35 | the comprehension keeps only non-empty stripped pieces and never lengthens the list |
| Config.ParseIsCleanedSplit | main.py:35 | the list is exactly the stripped, non-empty comma-separated pieces in their original order |
| Config.ParseConcat | main.py:35 | order is preserved: parsing `a,b` gives the servers of `a` followed by those of `b` |
| Config.ParseJoinRoundTrip | main.py:35 | joining clean entries with commas and parsing the result gives back the same list |
| Config.CleanPiecesOfClean | main.py:35 | a list of already-clean entries passes the filter unchanged |
| Text.StripIdempotent | main.py:35 | stripping a stripped string changes nothing |
| Config.IntLiteralCases | main.py:30 | the default `100` parses, while an empty value or one framed by an ASCII separator (U+001C to U+001F, which `strip()` removes but `int()` rejects) makes start-up fail |
| Config.ServerId | main.py:508 | an empty URL gives `unknown`; otherwise the id is the suffix after the last `/`: it contains no `/`, is preceded by `/` when shorter than the URL, and is the whole URL exactly when the URL has no `/` |
| Browser.IsLoggedInIff | main.py:59-64 | the session counts as logged in exactly when neither `login` nor `auth` occurs at any position of the URL |
| Browser.NotLoggedInOnMarker | main.py:59 | any URL with `login` or `auth` inside it fails the check |
| Browser.ChallengeDetectedAnyCase | main.py:174-182 | a challenge phrase written in any letter case, anywhere in the content, is detected |
| Browser.ChallengeDetectionCaseInsensitive | main.py:174-182 | detection gives the same answer on the content and on its lower-cased form |
| Resolver.FirstHit | main.py:287-305 | the index found is of a visible element whose stripped text matches, no earlier element matches, and nothing is found exactly when no element matches |
| Resolver.FindButtonAlternativeMethods | main.py:281-330 | the loops over the buttons and then the styled elements return exactly the two-pass text resolution |
| Resolver.ResolveByText | main.py:281-330 | a result is visible; in exact mode its stripped text is one of the keywords, in substring mode some keyword occurs in it; there is no result exactly when neither pass has a match |
| Resolver.ButtonPassWins | main.py:287-305 | when some button matches, the styled pass never runs and the first matching button is the result |
| Resolver.StyledPassRedundantForButtons | main.py:307-327 | if every styled element is also a button, the styled pass cannot find what the button pass missed |
| Resolver.FindRenewButton | main.py:217-249 | the selector hit when there is one, otherwise the substring text search; so without a selector hit a found renew button is visible and contains one of `시간`, `Renew`, `Add`, `추가` |
| Resolver.FindStartButton | main.py:251-279 | the selector hit when there is one, otherwise the exact text search; so without a selector hit a found start button is visible and its stripped text is exactly `Start` or `시작` |
| Flows.ClassifyRenew | main.py:399-425 | a four-way tag: an error pattern gives `already_renewed`; otherwise a success pattern gives `renew_success`; otherwise `renew_unknown_changed` exactly when the content changed and `renew_no_change` exactly when it did not |
| Flows.PatternFound | main.py:405-413 | a pattern in the page content in any letter case is found by the case-insensitive test |
| Flows.ErrorBeatsSuccess | main.py:405-411 | content holding both `error` and `success` is classified `already_renewed` |
| Flows.ClickRenewAndCheck | main.py:373-432 | a disabled button gives `renew_button_disabled` without a click; a click that raises gives `renew_click_error`; otherwise the four-way classification |
| Flows.RenewServer | main.py:332-371 | a page that failed to load, or a failed reload after a disabled button, gives `renew_error`; no button gives `no_renew_button`; a button still missing or disabled after one reload gives `renew_button_disabled`; none of these paths clicks; a click happens exactly when an enabled button was found, a click that raises gives `renew_click_error`, and otherwise the tag is the classification of the content around the click |
| Flows.ClassifyStart | main.py:480-495 | `start_success` exactly when the refound button is disabled or the lower-cased page holds `started`, `running`, `启动` or `시작`; otherwise `start_unknown` |
| Flows.KoreanStartLabelReadsAsStarted | main.py:488-490 | content still showing the Korean start label is classified `start_success` |
| Flows.StartClick | main.py:463-500 | the control is clicked exactly when it is enabled; a disabled one gives `already_started`; a click that raises gives `start_error`; otherwise the tag is the start classification of the page after the click |
| Flows.StartServer | main.py:434-504 | a failed reload gives `start_error` and no button gives `no_start_button`, both without a click; `already_started` exactly when a button was found and neither lookup found an enabled one; a click happens exactly when an enabled button was found; a click that raises gives `start_error`, and otherwise the tag is the start classification |
| Results.Table.Put | main.py:512-515 | `table[k] = v`: `k` maps to `v`, other entries are unchanged, and a new key joins the end of the insertion order while an old key keeps its place |
| Results.PutPut | main.py:528-529 | overwriting a field after writing the placeholder leaves only the last record, in the placeholder's place |
| Results.EntryCount | main.py:714 | the table has one entry per key in its insertion order |
| Automation.ServerOutcome | main.py:506-555 | no record is left `未执行`; a raise gives `error` twice, a failed login check gives `login_failed` twice, otherwise the renew and start tags |
| Automation.LoginFailureSkipsSteps | main.py:526-530 | after a failed login check the renew and start snapshots play no part |
| Automation.OutcomeHasMessages | main.py:670-698 | every tag a record can hold has its own report message |
| Automation.WeirdhostAuto.ProcessServer | main.py:506-555 | the table becomes the old table with this server's entry set to its outcome, and the returned line is `<id>: error`, `<id>: login_failed` or `<id>: renew:…,start:…` |
| Automation.WeirdhostAuto.ProcessServers | main.py:644-650 | processing every server in order yields the table fold and the list of per-server lines |
| Automation.IdList | main.py:641-642 | one identifier per configured server, in order |
| Automation.InIdList | main.py:641-642 | a key is among the identifiers exactly when some configured server has it as its id |
| Automation.RecordKey | main.py:512-515 | after a sequence of writes, a key is present exactly when it was present before or was written, and a key never written keeps its entry |
| Automation.RecordLength | main.py:512-515 | each write adds at most one key to the insertion order |
| Automation.RecordAt | main.py:512-515 | a key that is not written again later holds the value of its last write |
| Results.DistinctCard | main.py:714 | a list without repeats has as many distinct elements as positions |
| Automation.ProcessAllKeys | main.py:644-650 | the table gains exactly the configured server ids, keeps the entries of other keys, and grows by at most one key per server |
| Automation.ProcessAllRecords | main.py:641-643 | a server whose id does not recur later in the list holds its own visit's outcome, so of servers sharing an id the last one's outcome stays |
| Automation.LoginRule | main.py:607-637 | login needs a credential and a landing page that passes the login check; an accepted cookie whose landing passes suffices, and otherwise the outcome is the email path's, whose form submission must pass the check too |
| Automation.RunResults | main.py:557-660 | no credentials gives `["error: no_auth"]`, checked before no servers gives `["error: no_servers"]`; otherwise one result per server, all `login_failed` when no login worked |
| Automation.WeirdhostAuto.Run | main.py:557-660 | the returned list and the new table are those of the run's specification for the session |
| Automation.RunTable | main.py:641-652 | the table a run leaves is valid, keeps every earlier key, keeps the record of every key that no configured server has (a configured server's record is rewritten), and grows by at most one key per configured server |
| Automation.RunTableFromEmpty | main.py:733-737 | a run that processes servers records exactly their ids and none otherwise; both success counters are at most the number of configured servers |
| Report.MessagesCoverTags | main.py:670-698 | every renew, start and run-level tag has a message of its own |
| Report.Display | main.py:715-716 | a cell shows the `❓ ` marker exactly when its tag has no message, and then the raw tag after it |
| Report.Row | main.py:717 | a record's row ends its line, and breaks the line earlier only if the identifier or a cell's text holds a line break |
| Report.TableRows | main.py:714-717 | one row per record, in insertion order |
| Report.PutRows | main.py:714-717 | a newly recorded server appends exactly its row; rewriting a known one changes its row in place |
| Report.FailureTagRow | main.py:719-730 | each run-level failure tag is shown as an unknown-server row with its own message: the `error: …` tags hold a colon but are kept whole |
| Report.CountWhereBounds | main.py:733-737 | a counter is at most the number of records, and equals it exactly when every record qualifies |
| Report.CountersBounded | main.py:733-737 | each success counter is at most the number of records, and reaches it exactly when every record's step succeeded or had already been done |
| Report.NatToString | main.py:743-745 | a count is rendered as a non-empty string of decimal digits that denotes it, with a leading zero only for zero itself |
| Report.ReportShowsRows | main.py:700-756 | the report shows the row of every record, shows every result's fallback row when there are no records, and ends with the statistics over the configured servers |
| Automation.WeirdhostAuto.RecordRowsText | main.py:713-717 | the loop over the records builds exactly their rows, in insertion order |
| Automation.FallbackRowsText | main.py:719-730 | the loop over the result list builds exactly one fallback row per result, in order |
| Automation.WeirdhostAuto.WriteReadmeFile | main.py:662-757 | the text built with `+=` is the header, one row per record, the fallback rows when there are no records, and the counters over the configured servers |
| Automation.ExitStatusFailsOn | main.py:831-833 | a single result carrying a failure marker makes the whole run exit with 1 |
| Automation.RunFailureExitsNonZero | main.py:831-833 | missing credentials, missing servers, a timeout, a crash or a failed login all end in exit status 1 |
| Automation.LoginPageExitsNonZero | main.py:831-833 | a server whose page turned out to be a login page makes the run exit with 1 |
| Automation.LineMarkers | main.py:526-555 | a server's line contains `login_failed` exactly when its identifier does or its page was a login page, and contains `error:` exactly when its identifier does or ends in `error` |
| Automation.RunExitsZeroIff | main.py:829-836 | the run exits with 0 exactly when the server loop ran with nothing escaping, every server page passed the login check, and no identifier contains `login_failed` or `error:` or ends in `error` |
| Automation.FallbackRowsOfFailedRun | main.py:719-730 | when a run leaves no records, every fallback row is an unknown-server row carrying the message of the run-level failure, never the `❓` form |
| Automation.Launch | main.py:768-836 | a `SLOW_MO` value that `int()` rejects, missing credentials or missing servers exit with 1 before any browser work and with no report; otherwise the exit status is the exit rule over the run's results, and the report is the report of the run's table |

## Left out

- Browser operations: `goto`, `reload`, `wait_for*`, locators, `hover` and `click`. They appear only as the page snapshots they yield.
- Which of the role-specific selectors matched a control: only the control it reported is modelled (`renewHit`, `startHit`). The selector pass reports a control only after `is_visible()` (main.py:225-232 and 259-266), but the model does not require the reported control to be visible.
- Timing: every `time.sleep`, every timeout, and the selector-visibility waits of the challenge check. `wait_for_page_ready` is not part of this model because it only waits.
- Cookie construction and `add_cookies`, and filling the email form: only whether they raised and the URLs they led to are modelled.
- Browser launch arguments, the context and viewport, and `HEADLESS`: they do not affect any decision. `SLOW_MO` is modelled only as the `int()` parse that can abort start-up (`Config.IntLiteral`); its value is not used.
- Config.IntLiteral: the non-ASCII decimal digits that `int()` also accepts, and its limit on the number of digits, are not modelled.
- Logging, the printed summary in `main`, and writing `README.md` to disk. `WriteReadmeFile` returns the text instead, and a failure to write is not modelled.
- The Beijing-time timestamp: it is a parameter, because it comes from the clock.
- `lower()` is modelled as ASCII lower-casing. None of the Korean or Chinese patterns has case, so they are unaffected.
- Automation.Session: an exception escaping `run` is modelled at two stages: while launching the browser or logging in, before any server is processed (the table stays empty); or while closing the browser or leaving the Playwright context after the loop (main.py:652), when the records the loop wrote stay and only the result list is replaced by the fault list. The per-server `try` catches everything raised inside `process_server`. Exactly where during start-up or closing the exception arose is not modelled.
- Automation.WeirdhostAuto.Run: the login attempts are read from the session's recorded observations, not performed.
- Flows.StartClick: after a successful click, an exception while re-checking the button gives `start_unknown` in the script. That case is not separated from a clean re-check. A `None` after-click snapshot stands for the click itself raising (`start_error`).
- Browser.Control: `is_visible()`, `is_enabled()` and `text_content()` are modelled as never raising. So these paths are dropped:
  - an element that raises in the button pass is skipped (main.py:304-305);
  - one that raises in the styled pass ends that pass with no result, even if a later element matches (main.py:326-327);
  - `is_enabled()` raising at main.py:353, or on the re-found button at line 362, gives `renew_error`; raising at line 376 gives `renew_click_error`; raising at lines 454, 460 and 465 gives `start_error`, while a button is in hand.
- Browser.EmailLoginSucceeded: the steps of the email form are not modelled one by one; the URL reached after submitting, or `None` when a step raised, stands for them.
- Flows.RenewServer: an exception between a successful reload and the second lookup is folded into the reload snapshot being `None` (`renew_error`).
- Automation.Launch: the exit code is returned as a value; `sys.exit` is not modelled.
