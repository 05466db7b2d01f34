# iCity friends-feed monitor — a Dafny model of its change detection and alerting

`icity_friends_monitor.py` polls the iCity friends page with a login
cookie. It parses the posts on the page and posts one Feishu webhook
message whenever new posts appear above the last one it announced. It also
alerts when the fetch fails, when the site refuses the cookie, or when the
page no longer parses, and it stays quiet during a nightly window (Shanghai
time).

This project models the logic at the heart of that program:

- **Schedule** (`schedule.dfy`). Parses and formats `HH:MM`, tests the quiet
  window (which may wrap past midnight), and works out how long to sleep
  until the window ends.
- **Parser** (`parser.dfy`). Covers the following:
  - post-id extraction from `/a/<id>` links;
  - the item pass with its time-link fallback;
  - first-occurrence de-duplication;
  - the page-wide fallback pass.

  Both passes are imperative loops over a list and a set, proved against a
  specification function.
- **Alerts** (`alerts.dfy`). The single `last_alert` slot, the cooldown test,
  and the record `set_alert` writes, with its detail truncated.
- **Channel** (`channel.dfy`). The webhook success predicate, the delivery
  verdict, and the choice of exactly one enabled channel.
- **Cookie** (`cookie.dfy`). The text normalisation of the cookie file.
- **Cycle** (`cycle.dfy`). One check cycle (`run_once`) as a method on a
  `MonitorState` class. The class has the state dict's keys as fields and a
  ghost `persisted` field that `save_state` assigns. The method is proved
  equal to the specification function `Step`, and the properties of a cycle
  are lemmas about `Step`.
- **PollLoop** (`loop.dfy`). The polling loop (`run_loop`), driven by a
  finite sequence of ticks. The method is proved equal to the function
  `Loop`, which is `Drive` with `Step` as its cycle. The loop's properties
  are lemmas about `Drive` for any cycle, with the two facts they need
  about a cycle as preconditions. `StepIsWellBehaved` proves those facts
  for `Step`, and `LoopProperties` combines everything for `Loop`.

All Python string semantics the logic depends on are written out in
`text.dfy`:

- `str.isspace` (which is also `\s` and a bare `strip()`);
- `strip(chars)`;
- `re.sub(r"\s+", " ", ·).strip()`;
- `str.lower` for the characters that can matter;
- substring tests;
- `str(int)`.

Three behaviours of the program are easy to misread:

- A failed fetch whose alert is within its cooldown records and saves
  nothing. The `if should_send_alert` block encloses `set_alert`, the
  `last_checked_at` update and `save_state` alike. For `http_error` and
  `parse_failed`, only `set_alert` is gated.
- An interrupt always makes `run_loop` return 0.
- The inner `("登录" in html or "log in" in lower or "login" in lower)`
  test of `looks_like_login_page` cannot fail once `"/login" in lower`
  holds. A page is therefore flagged exactly when its path contains
  `login`, it has a password field, or its body mentions `/login`. This
  is proved, in `Cycle.LooksLikeLoginPage`.

`seconds_until_quiet_end` truncates with `int()`. When the clock reading
has a fractional second, the sleep therefore ends up to a second before
the window's end (`Schedule.SecondsUntilQuietEnd` states the exact wake
time). The next turn of the loop then sleeps 0 seconds until the window
is over.

## Model

| member | source | states |
|---|---|---|
| Text.Strip | icity_friends_monitor.py:112 | `strip()` keeps the middle slice between leading and trailing `str.isspace` runs; the result neither starts nor ends with whitespace; a string without whitespace at its ends is unchanged |
| Text.StripBy | icity_friends_monitor.py:122 | `strip(chars)`: everything removed from either end is in `chars`, the kept slice neither starts nor ends with one of them |
| Text.StripByAt | icity_friends_monitor.py:122 | `strip(chars)` keeps exactly the slice that has only stripped characters outside it and none at its own two ends |
| Text.StripPadded | icity_friends_monitor.py:71 | whitespace of any kind and length around a text never changes its `strip()` |
| Text.NormalizeIsNormalized | icity_friends_monitor.py:111-112 | `normalize_whitespace` leaves no whitespace at the ends and only single plain spaces inside |
| Text.NormalizeWhitespace | icity_friends_monitor.py:111-112 | `re.sub(r"\s+", " ", text).strip()`; no contract of its own: `NormalizeIsNormalized`, `NormalizeIdempotent`, `NormalizeFixesNormalized` and `NormalizeKeepsVisible` specify it |
| Text.Collapse | icity_friends_monitor.py:112 | `re.sub(r"\s+", " ", ·)`; no contract of its own: `CollapseShape`, `CollapseFixesCollapsed` and `VisibleCollapse` specify it |
| Text.NormalizeIdempotent | icity_friends_monitor.py:111-112 | normalising twice is normalising once |
| Text.NormalizeKeepsVisible | icity_friends_monitor.py:111-112 | normalising removes or replaces only whitespace: every other character survives, in order |
| Text.CollapseShape | icity_friends_monitor.py:112 | `re.sub(r"\s+", " ", ·)` yields text whose whitespace is single plain spaces |
| Text.CollapseFixesCollapsed | icity_friends_monitor.py:112 | collapsing already-collapsed text changes nothing |
| Text.NormalizeFixesNormalized | icity_friends_monitor.py:111-112 | a normalised text is its own normal form |
| Text.VisibleStrip | icity_friends_monitor.py:112 | `strip()` removes only whitespace |
| Text.VisibleCollapse | icity_friends_monitor.py:112 | collapsing whitespace runs keeps every other character in order |
| Text.Truncate | icity_friends_monitor.py:315-319 | the result is at most `max(max_len, 1)` long; a text whose normal form fits comes back normalised; otherwise it is exactly that long, ends in `…`, and the rest is a prefix of the normal form |
| Text.Lower | icity_friends_monitor.py:185 | `lower()` keeps the length, leaves no ASCII capital, turns `A`-`Z` into `a`-`z` and the Kelvin sign into `k`, and keeps every other character where it was |
| Text.IntToString | icity_friends_monitor.py:501 | `str(status)`: a `-` exactly for a negative number, then digits that read back as the magnitude |
| Text.NatToString | icity_friends_monitor.py:501 | the decimal digits of `n`, without a leading zero, read back as `n` |
| Schedule.HhmmToMinutes | icity_friends_monitor.py:70-78 | text that is not, once stripped, one or two digits, a colon and two digits is rejected as badly formed; otherwise the result is the range check of the hour and minute groups read as decimal numbers, and every accepted value is in [0, 1439] |
| Schedule.ParseClock | icity_friends_monitor.py:71-78 | rejected as badly formed exactly when the stripped text is not `\d{1,2}:\d{2}`; otherwise 60 × hour + minute when hour ≤ 23 and minute ≤ 59, else out of range |
| Schedule.ParsesPadded | icity_friends_monitor.py:71-78 | two zero-padded two-digit fields around a colon are read back as that hour and minute, then range-checked |
| Schedule.ParsesOneDigitHour | icity_friends_monitor.py:71-78 | a one-digit hour, a colon and two minute digits are read back as that hour and minute, then range-checked |
| Schedule.ClockFields | icity_friends_monitor.py:74-75 | the hour group is its one or two digits as a number, the minute group its two digits |
| Schedule.OneDigitExample | icity_friends_monitor.py:70-78 | `9:05` is minute 545 |
| Schedule.MinuteOutOfRangeExample | icity_friends_monitor.py:70-78 | ` 5:60 ` is out of range, not badly formed |
| Schedule.LongHourExample | icity_friends_monitor.py:70-78 | `123:00` is badly formed |
| Schedule.HhmmRejectsOutOfRange | icity_friends_monitor.py:76-77 | a well-formed `HH:MM` with hour > 23 or minute > 59 is rejected as out of range |
| Schedule.HhmmIgnoresSurroundingSpace | icity_friends_monitor.py:71 | any run of `str.isspace` characters before and after the value leaves the verdict unchanged |
| Schedule.MinutesToHhmm | icity_friends_monitor.py:54-56 | the output is two digits, a colon, two digits |
| Schedule.HhmmRoundTrip | icity_friends_monitor.py:54-56 | `hhmm_to_minutes(minutes_to_hhmm(m)) == m % 1440` for every integer `m` |
| Schedule.InQuietWindow | icity_friends_monitor.py:81-87 | an empty window (start == end) never holds |
| Schedule.QuietWindowIsForwardArc | icity_friends_monitor.py:81-87 | the window holds exactly on the half-open arc from start forward to end, wrapping past midnight |
| Schedule.TruncSeconds | icity_friends_monitor.py:107 | `int()` of a seconds quotient truncates toward zero |
| Schedule.SecondsUntilQuietEnd | icity_friends_monitor.py:90-108 | 0 outside the window; inside, a value in [0, 86400) such that the wake time (plus the truncated fraction) is the window's end |
| Schedule.WakeTimeIsNotQuiet | icity_friends_monitor.py:81-87 | the window's end minute is not itself in the window |
| Parser.IdRun | icity_friends_monitor.py:195 | the greedy `[^/?#]+` run is a prefix made of id characters and stops at the first other character |
| Parser.FirstMatchFrom | icity_friends_monitor.py:195 | the leftmost position at or after a start index where `/a/` is followed by an id character |
| Parser.ExtractPostId | icity_friends_monitor.py:194-198 | an extracted id is non-empty and has no `/`, `?` or `#` |
| Parser.ExtractPostIdIsLeftmostMatch | icity_friends_monitor.py:194-198 | `None` exactly when no match exists; otherwise the id follows the leftmost `/a/` match in the href and is maximal |
| Parser.FirstIdIndex | icity_friends_monitor.py:201-206 | the index of the first anchor whose href carries an id |
| Parser.FirstIdAnchor | icity_friends_monitor.py:201-206 | the anchor at the first index whose href carries an id, `None` when there is none |
| Parser.FirstLinkWithActivityId | icity_friends_monitor.py:201-206 | the loop returns the first anchor with an id, `None` exactly when there is none |
| Parser.ChooseTimeLink | icity_friends_monitor.py:220-225 | the chosen link always carries an id; the `time-link` anchor is kept when it has one, otherwise the first anchor of the item that has one is taken; `None` exactly when neither exists |
| Parser.ItemCandidate | icity_friends_monitor.py:219-275 | an item yields a post exactly when a link with an id is chosen, with that link's id and joined URL; every text field is in normal form; the time text is the normalised link text, `None` exactly when that is empty |
| Parser.AnchorCandidate | icity_friends_monitor.py:281-300 | a fallback post carries its link's id and has every optional field `None` |
| Parser.ItemPost | icity_friends_monitor.py:236-275 | the post built from an item and its link; `ItemCandidate` states its fields |
| Parser.FirstWithId | icity_friends_monitor.py:231-233 | the first candidate carrying a given id |
| Parser.KeepFirst | icity_friends_monitor.py:216-233 | first-occurrence de-duplication against a `seen` set; no contract of its own: `KeepFirstDistinct`, `KeepFirstAtFirstOccurrence`, `KeepFirstInOrder` and `KeepFirstComplete` specify it |
| Parser.KeepFirstDistinct | icity_friends_monitor.py:231-233 | the kept posts have pairwise distinct ids, none already seen |
| Parser.KeepFirstAtFirstOccurrence | icity_friends_monitor.py:231-233 | each kept post is the first candidate carrying its id |
| Parser.KeepFirstInOrder | icity_friends_monitor.py:231-233 | kept posts appear in document order |
| Parser.KeepFirstComplete | icity_friends_monitor.py:231-233 | every id carried by some candidate is kept |
| Parser.ParsedPostsWellFormed | icity_friends_monitor.py:209-302 | parsed ids are pairwise distinct well-formed post ids |
| Parser.SelectItems | icity_friends_monitor.py:212-214 | the primary selector's items, or the secondary selector's when there are none; used by `ItemPass` |
| Parser.ItemPass | icity_friends_monitor.py:216-275 | the de-duplicated item candidates; `CollectItemPosts` is proved to compute it |
| Parser.FallbackPass | icity_friends_monitor.py:277-302 | the de-duplicated page-wide link candidates; `CollectLinkPosts` is proved to compute it |
| Parser.ParsedPosts | icity_friends_monitor.py:209-302 | the item pass, or the page-wide pass when it is empty; `ParsedPostsWellFormed`, `FallbackOnlyWhenItemPassEmpty` and `FallbackFindsLinks` state its properties |
| Parser.FallbackOnlyWhenItemPassEmpty | icity_friends_monitor.py:277-302 | the page-wide pass is used only when the item pass found nothing, and its posts have all optional fields `None` |
| Parser.FallbackFindsLinks | icity_friends_monitor.py:277-302 | a page with no usable item but a link carrying an id still yields posts |
| Parser.CollectedAdvance | icity_friends_monitor.py:231-233 | one loop step keeps the invariant: kept posts, seen ids, and what is still to come |
| Parser.AppendNewId | icity_friends_monitor.py:233-275 | appending a post with an unseen id keeps the ids distinct |
| Parser.CollectItemPosts | icity_friends_monitor.py:219-275 | the item loop returns exactly the first-occurrence posts of the items, with distinct ids |
| Parser.CollectLinkPosts | icity_friends_monitor.py:281-300 | the fallback loop returns exactly the first-occurrence posts of the page's links, with distinct ids |
| Parser.ParsePosts | icity_friends_monitor.py:209-302 | `parse_posts` equals the two-pass specification and its ids are distinct |
| Alerts.KindName | icity_friends_monitor.py:443 | every alert type is a non-empty lower-case name |
| Alerts.KindNameInjective | icity_friends_monitor.py:392 | distinct kinds have distinct stored names |
| Alerts.CooldownSeconds | icity_friends_monitor.py:442 | `max(0, minutes) * 60`: whole minutes, 0 for a non-positive setting |
| Alerts.ShouldSendAlert | icity_friends_monitor.py:388-400 | an alert is suppressed exactly when the stored alert has the same type, a parseable `at`, and less elapsed time than the cooldown |
| Alerts.NewAlert | icity_friends_monitor.py:403-404 | the record holds the type, the time, and the detail truncated to at most 200 characters: kept when its normal form fits, otherwise 199 characters plus `…` |
| Alerts.CooldownAfterRecord | icity_friends_monitor.py:388-404 | right after recording kind `k`, an alert of kind `k` is sent again iff elapsed ≥ cooldown, and any other kind is always sent |
| Alerts.ZeroCooldownAlwaysSends | icity_friends_monitor.py:388-400 | with cooldown 0 every alert is sent, as long as the stored `at` is not in the future (elapsed time not negative) |
| Alerts.CooldownMonotone | icity_friends_monitor.py:400 | a longer cooldown never sends an alert that a shorter one suppresses |
| Channel.FeishuSuccess | icity_friends_monitor.py:326-333 | success exactly when the reply is an object whose `StatusCode` or `code` equals zero |
| Channel.FeishuReplies | icity_friends_monitor.py:326-333 | either key at zero (including `false`) succeeds; non-zero codes, `null` and non-objects fail |
| Channel.DeliveryVerdict | icity_friends_monitor.py:336-346 | delivery succeeds iff status 200, a JSON reply, and `feishu_success`; a non-200 status and a non-JSON reply fail with their own errors |
| Channel.Enabled | icity_friends_monitor.py:362 | the enabled entries are objects whose `enabled` is exactly `true`; each comes from the list and every enabled entry of the list is among them |
| Channel.EnabledInOrder | icity_friends_monitor.py:362 | the enabled entries are the entries at a strictly increasing list of positions that covers every enabled position: all of them, in order |
| Channel.FieldText | icity_friends_monitor.py:367 | `(v or "").strip()`: a falsy value gives `""`, a string gives its `strip()`, and only a truthy non-string is an error |
| Channel.ResolveChannel | icity_friends_monitor.py:349-377 | a non-blank `--webhook` wins; otherwise a non-array `channels` is an error, no channels is an error, a number of enabled entries other than one is an error carrying that number; a resolved webhook is non-blank and stripped |
| Channel.SoleEnabled | icity_friends_monitor.py:362-366 | with exactly one enabled entry, it is at some index and no other entry is enabled |
| Channel.ResolvedIsSoleEnabled | icity_friends_monitor.py:362-375 | without `--webhook`, the resolved channel comes from the only enabled entry, whose type strips to `feishu` and whose webhook strips to the result |
| Channel.SoleFeishuResolves | icity_friends_monitor.py:362-377 | without `--webhook`, one enabled entry of type `feishu` with a non-blank webhook resolves to that webhook, stripped |
| Channel.OnlyEnabled | icity_friends_monitor.py:362 | when only the entry at `i` is enabled, the enabled list is that entry alone |
| Cookie.Lines | icity_friends_monitor.py:131 | the pieces between line breaks hold no line break; a text without breaks is one piece |
| Cookie.LinesSplitAtBreaks | icity_friends_monitor.py:131 | there is one more piece than there are breaks, and the pieces together are the text without its breaks |
| Cookie.JoinStripped | icity_friends_monitor.py:131 | joining stripped lines leaves no whitespace at the ends and no line break |
| Cookie.JoinStrippedEmpty | icity_friends_monitor.py:131-133 | the join is empty exactly when every line strips to nothing |
| Cookie.JoinStrippedAppend | icity_friends_monitor.py:131 | joining distributes over concatenating line lists |
| Cookie.JoinLines | icity_friends_monitor.py:131 | the joined text has no whitespace at its ends and no line break |
| Cookie.NormalizeCookie | icity_friends_monitor.py:122-133 | an accepted cookie is non-empty, a single line, without whitespace at its ends; a file of only whitespace and quotes is rejected as empty |
| Cookie.Unquoted | icity_friends_monitor.py:122 | `raw.strip().strip('"').strip("'")`, a composition of `Strip` and `StripBy`, whose contracts state what is removed |
| Cookie.WithoutHeader | icity_friends_monitor.py:125-126 | drops a leading `cookie:` in any case and the whitespace after it; `HeaderIsDropped` states it |
| Cookie.JoinLinesKeepsVisible | icity_friends_monitor.py:131 | joining the lines removes whitespace only; every other character survives in order |
| Cookie.PlainCookieUnchanged | icity_friends_monitor.py:122-133 | a plain cookie (one non-empty line, no whitespace or quote at its ends, no `cookie:` prefix) is read back unchanged |
| Cookie.HeaderIsDropped | icity_friends_monitor.py:125-126 | for a plain cookie `c`, `Cookie: c` is read back as `c` |
| Cookie.TypicalCookieUnchanged | icity_friends_monitor.py:122-133 | `a=1; b=2`, with a space inside, is read back unchanged |
| Cycle.LooksLikeLoginPage | icity_friends_monitor.py:178-191 | flagged exactly when the path contains `login`, the body has a password field, or the body mentions `/login` |
| Cycle.SlashLoginHasLogin | icity_friends_monitor.py:189 | text containing `/login` contains `login` |
| Cycle.IndexOf | icity_friends_monitor.py:553-554 | the first position of an id, `None` exactly when it is absent |
| Cycle.NewPosts | icity_friends_monitor.py:550-558 | the new posts are a prefix of the page: all posts above the first `last_id` when it is present (none of them is `last_id`), otherwise the first `max(1, max_notify)` posts, with `unknown_total` set exactly then |
| Cycle.NothingNewIffNewestIsLast | icity_friends_monitor.py:550-565 | on a non-empty page nothing is new iff the newest post is `last_id` |
| Cycle.NewPostsAreThoseAbove | icity_friends_monitor.py:553-556 | with distinct ids and `last_id` at index i, the new posts are exactly `posts[:i]` |
| Cycle.Step | icity_friends_monitor.py:419-590 | one `run_once`; no contract of its own: the `Cycle` lemmas below and `MonitorState.RunOnce` state what it does |
| Cycle.StopSavesFirst | icity_friends_monitor.py:459-498 | a cycle stops iff the status is 401/403/429 or the page looks like a login page; it then records `unauthorized`/`forbidden`/`rate_limited`/`cookie_invalid` without any cooldown, sets the check time, saves, keeps `last_id` and yields exit code 1 |
| Cycle.OtherStatusRetries | icity_friends_monitor.py:500-516 | any other non-200 status on a page that does not look like a login page returns 1, never stops, keeps `last_id`, and always sets the check time and saves |
| Cycle.FetchFailureGating | icity_friends_monitor.py:437-455 | a failed fetch returns 1; within the cooldown nothing changes or is saved; otherwise the alert is recorded and the state saved |
| Cycle.AlertsRespectCooldown | icity_friends_monitor.py:441-534 | a non-terminal alert message goes out only outside its cooldown |
| Cycle.StoredAlertIsAnnounced | icity_friends_monitor.py:441-534 | whenever a cycle stores a new alert, it also sends an alert message of that kind, and the stored detail is at most 200 characters |
| Cycle.UnsavedMeansUnchanged | icity_friends_monitor.py:437-590 | a cycle that does not save leaves the in-memory state unchanged |
| Cycle.DeltaRule | icity_friends_monitor.py:550-575 | with a stored `last_id`, the message announces exactly the new posts, and with none new the cycle returns 0, keeps `last_id` and saves |
| Cycle.FirstRunIsSilent | icity_friends_monitor.py:540-548 | with no usable `last_id`, the cycle records the newest id, sends nothing and returns 0 |
| Cycle.LastIdAdvancesOnlyAfterDelivery | icity_friends_monitor.py:540-590 | `last_id` changes only to the newest parsed id, on result 0 with a save, and except on the first run only after a delivered update |
| Cycle.FailedDeliveryKeepsState | icity_friends_monitor.py:578-585 | a failed delivery returns 1 and changes and saves nothing |
| Cycle.DeliveredUpdateAdvances | icity_friends_monitor.py:578-590 | a delivered (or dry-run) update sets `last_id` to the newest id, sets the check time, saves and returns 0 |
| Cycle.RepeatRunIsQuiet | icity_friends_monitor.py:550-565 | re-running on the same page after a cycle that returned 0 announces nothing and keeps `last_id` |
| Cycle.MonitorState.constructor | icity_friends_monitor.py:135-148 | the loaded state is both in memory and on file |
| Cycle.MonitorState.SetAlert | icity_friends_monitor.py:403-404 | overwrites the single `last_alert` slot and nothing else |
| Cycle.MonitorState.Save | icity_friends_monitor.py:151-160 | the file now holds the in-memory state |
| Cycle.MonitorState.CooldownAlert | icity_friends_monitor.py:500-535 | records the alert only outside its cooldown, then always sets the check time and saves |
| Cycle.MonitorState.StopWith | icity_friends_monitor.py:459-498 | records the terminal alert, sets the check time, saves, and yields exit code 1 |
| Cycle.MonitorState.RunOnce | icity_friends_monitor.py:419-590 | the in-memory state, the saved state, the result and the message are those of `Step` |
| PollLoop.IntervalSeconds | icity_friends_monitor.py:612 | `max(1, interval_minutes) * 60`: at least one minute, in whole minutes |
| PollLoop.StepIsWellBehaved | icity_friends_monitor.py:419-590 | every stop of `run_once` carries exit code 1, and a cycle that does not save changes nothing |
| PollLoop.Drive | icity_friends_monitor.py:615-650 | the loop over ticks for any cycle function; the lemmas below state its properties |
| PollLoop.Loop | icity_friends_monitor.py:593-653 | `Drive` with `Step` as the cycle; `LoopProperties` and `RunLoop` are about it |
| PollLoop.StopEndsTheLoop | icity_friends_monitor.py:615-650 | no cycle runs after a stop, and the loop exits with the stop's code |
| PollLoop.ExitCodes | icity_friends_monitor.py:643-653 | when every stop carries code 1, the loop exits with 1 right after a stop and with 0 otherwise |
| PollLoop.RunningMeansNoInterrupt | icity_friends_monitor.py:615-653 | while the loop is still running, no interrupt has arrived |
| PollLoop.SleepsAreBounded | icity_friends_monitor.py:617-650 | every sleep is the interval or a quiet-window sleep shorter than a day; at most one cycle and one sleep per turn |
| PollLoop.QuietWindowRunsNothing | icity_friends_monitor.py:617-627 | inside the quiet window no cycle runs and nothing is saved |
| PollLoop.LoopKeepsStateSaved | icity_friends_monitor.py:628-650 | when a cycle never changes the state without saving it, a state in step with its file stays in step across the loop |
| PollLoop.LoopProperties | icity_friends_monitor.py:593-653 | for `run_loop` itself: a stop ends the loop with 1, otherwise it exits with 0; while running no interrupt arrived; the sleeps are bounded; the state stays in step with its file |
| PollLoop.LoopUnfold | icity_friends_monitor.py:615-650 | one turn of the loop: a quiet sleep, or a cycle followed by the interval sleep |
| PollLoop.RunLoop | icity_friends_monitor.py:593-653 | the exit, cycle results, sleeps and in-memory and saved state are those of `Loop` |

## Left out

- HTTP I/O is replaced by abstract outcomes: `fetch_html`, `send_feishu_text`'s POST and `requests.Session`. A fetch is an exception text or a response. A post is a transport failure or a status and optional JSON body.
- Several library calls become inputs: BeautifulSoup selection, `get_text`, `urlparse(...).path` and `urljoin`. A page is given as its selected items and links, the URL path as a string, and `urljoin(base_url, ·)` as a function.
- File I/O is left out: `load_state` with its backup of a corrupt file, the temporary-file write and rename in `save_state`, `load_config_file`, and the file read in `read_cookie_file`. Saving is the assignment of a ghost snapshot.
- The wall clock is left out: `now_iso`, `shanghai_now`, `parse_iso` and `time.sleep`. A cycle receives one `now` string, and the source's separate `now_iso()` calls for `at` and `last_checked_at` share it. The elapsed whole seconds since the stored alert are an input, `None` when unparseable. Sleeps are returned, not performed.
- `Alerts.ShouldSendAlert` does not model a stored `at` without a UTC offset. Subtracting that naive datetime from an aware one raises in Python; the model receives its age like any other.
- `KeyboardInterrupt` is observed only between turns of the loop. An interrupt in the middle of a cycle is not modelled.
- `PollLoop.RunLoop` runs for a finite number of ticks instead of `while True`. It reports `Running` when they run out.
- Exceptions that `run_once` does not catch are not modelled; in the source they escape `run_loop`. An example is a failing `save_state`.
- These are left out: `log`, `print`, `argparse`, `main`'s configuration defaults and range checks, the `FEISHU_WEBHOOK` environment fallback, `format_author`, and the text of `build_update_message` (only the count is kept).
- A state-file `last_id` that is missing and one that is not a string are both `None`.
- `Schedule.ParseClock` accepts ASCII digits only. Python's `\d` also accepts other Unicode decimal digits.
- `Text.Lower` lower-cases only ASCII letters and the Kelvin sign. Every other character is kept, even where Python would lower-case it. This is exact for the ASCII needles searched for, and for the raw-body search of the Chinese word.
- `Cookie.Lines` also splits between `\r` and `\n`, where `str.splitlines` does not. The extra empty piece strips to nothing and adds nothing to the join.
