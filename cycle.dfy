/** One check cycle (`run_once`): classify the fetch outcome, apply the
    alert cooldown, compute the new posts against `last_id`, notify, and
    decide what to write back to the state file. The fetch and the webhook
    POST are inputs; `save_state` assigns a ghost snapshot of the state. */
module Cycle {
  import opened Common
  import opened Text
  import opened Parser
  import opened Alerts
  import opened Channel

  // ---------------------------------------------------------------------
  // looks_like_login_page

  /** `looks_like_login_page`, on the path of the final URL (`""` when it
      does not parse) and the page body. The raw body is searched for the
      Chinese word for "log in"; the other needles are ASCII and are looked
      for in the lower-cased body. Because `"login"` occurs inside
      `"/login"`, the second half of the last test always holds, so a page
      is flagged exactly when its path mentions `login`, it has a password
      field, or it links to `/login`. */
  function LooksLikeLoginPage(urlPath: string, html: string): (r: bool)
    ensures r <==>
      || Contains(urlPath, "login")
      || Contains(Lower(html), "type=\"password\"")
      || Contains(Lower(html), "name=\"password\"")
      || Contains(Lower(html), "/login")
  {
    var lower := Lower(html);
    if Contains(urlPath, "login") then true
    else if Contains(lower, "type=\"password\"") || Contains(lower, "name=\"password\"") then true
    else if Contains(lower, "/login") && (Contains(html, "登录") || Contains(lower, "log in") || Contains(lower, "login")) then true
    else
      assert !Contains(lower, "/login") by {
        if Contains(lower, "/login") { SlashLoginHasLogin(lower); }
      }
      false
  }

  lemma SlashLoginHasLogin(s: string)
    requires Contains(s, "/login")
    ensures Contains(s, "login")
  {
    var i :| 0 <= i <= |s| - 6 && OccursAt(s, "/login", i);
    assert s[i + 1..i + 6] == s[i..i + 6][1..];
    assert OccursAt(s, "login", i + 1);
  }

  // ---------------------------------------------------------------------
  // the new-post delta

  /** `list.index`: the first position of `x`, or `None`. */
  function IndexOf(ids: seq<string>, x: string): (r: Option<nat>)
    ensures r.Some? ==> r.value < |ids| && ids[r.value] == x
    ensures r.Some? ==> forall j :: 0 <= j < r.value ==> ids[j] != x
    ensures r.None? <==> x !in ids
  {
    if ids == [] then None
    else if ids[0] == x then Some(0)
    else match IndexOf(ids[1..], x)
      case None => None
      case Some(i) => Some(i + 1)
  }

  /** The posts to announce and whether their number is only a lower
      bound (`unknown_total`). */
  datatype Delta = Delta(posts: seq<Post>, unknownTotal: bool)

  /** The new posts against the last announced id, newest first: the posts
      above `lastId` when the page still shows it, otherwise the first
      `max(1, maxNotify)` posts. */
  function NewPosts(posts: seq<Post>, lastId: string, maxNotify: int): (d: Delta)
    ensures |d.posts| <= |posts| && d.posts == posts[..|d.posts|]
    ensures !d.unknownTotal ==> |d.posts| < |posts| && posts[|d.posts|].postId == lastId
    ensures !d.unknownTotal ==> forall k :: 0 <= k < |d.posts| ==> d.posts[k].postId != lastId
    ensures d.unknownTotal <==> lastId !in Ids(posts)
    ensures d.unknownTotal ==> |d.posts| == Min(|posts|, Max(1, maxNotify))
  {
    match IndexOf(Ids(posts), lastId)
    case Some(i) => Delta(posts[..i], false)
    case None => Delta(posts[..Min(|posts|, Max(1, maxNotify))], true)
  }

  /** On a non-empty page there is nothing new exactly when the newest post
      is the last announced one. */
  lemma NothingNewIffNewestIsLast(posts: seq<Post>, lastId: string, maxNotify: int)
    requires posts != []
    ensures NewPosts(posts, lastId, maxNotify).posts == [] <==> posts[0].postId == lastId
  {
    var d := NewPosts(posts, lastId, maxNotify);
    if posts[0].postId == lastId {
      assert Ids(posts)[0] == lastId;
    }
  }

  /** With distinct ids, the announced posts are exactly those whose id
      sits above `lastId` on the page. */
  lemma NewPostsAreThoseAbove(posts: seq<Post>, lastId: string, maxNotify: int, i: nat)
    requires DistinctIds(posts) && i < |posts| && posts[i].postId == lastId
    ensures NewPosts(posts, lastId, maxNotify) == Delta(posts[..i], false)
  {
    assert Ids(posts)[i] == lastId;
    var d := NewPosts(posts, lastId, maxNotify);
    assert posts[|d.posts|].postId == lastId;
  }

  // ---------------------------------------------------------------------
  // inputs and outcomes of a cycle

  /** What `fetch_html` produced: an exception (with its text), or a
      response with its status, final URL, the path of that URL, its body
      and the page as the selectors see it. */
  datatype FetchOutcome =
    | TransportError(reason: string)
    | Response(status: int, url: string, urlPath: string, html: string, page: Page)

  /** The settings `run_once` reads. `join` is `urljoin(base_url, ·)`. */
  datatype Settings = Settings(maxNotify: int, cooldownMinutes: int, dryRun: bool, join: string -> string)

  /** Everything the outside world contributes to one cycle: the fetch, the
      webhook's reply (used only when a message is posted), the current time
      as `now_iso` formats it, and the age in whole seconds of the stored
      alert's `at` (`None` when it does not parse). */
  datatype CycleInput = CycleInput(fetch: FetchOutcome, send: SendOutcome, now: string, elapsed: Option<int>)

  /** `run_once`'s outcome: return 0, return 1, or raise `MonitorStopped`
      with an exit code. */
  datatype CycleResult = Success | Retry | Stop(code: int)

  /** A message the cycle printed (dry run) or posted. */
  datatype Message = AlertMessage(kind: AlertKind) | UpdateMessage(count: nat)

  /** The keys of the state file the monitor reads and writes. `lastId` is
      `None` when the key is missing or not a string. */
  datatype StateRecord = StateRecord(lastId: Option<string>, lastCheckedAt: Option<string>, lastAlert: Option<StoredAlert>)

  /** The new in-memory state, whether it was saved, the result and the
      message sent. */
  datatype Outcome = Outcome(state: StateRecord, saved: bool, result: CycleResult, message: Option<Message>)

  const FetchFailedPrefix: string := "抓取失败："
  const ParseFailedDetail: string := "解析失败：未找到任何动态条目（页面结构可能变更）"

  function HttpDetail(status: int, url: string): string {
    "HTTP " + IntToString(status) + "，url=" + url
  }

  function LoginDetail(status: int, url: string): string {
    "跳转登录/未登录：" + HttpDetail(status, url)
  }

  /** The statuses on which the monitor stops at once. */
  predicate IsStopStatus(status: int) {
    status == 401 || status == 403 || status == 429
  }

  function StopKind(status: int): AlertKind {
    if status == 429 then RateLimited else if status == 403 then Forbidden else Unauthorized
  }

  /** Whether an update message reached the channel: always in a dry run,
      otherwise when the webhook accepted it. */
  predicate Delivered(settings: Settings, send: SendOutcome) {
    settings.dryRun || DeliveryVerdict(send).Ok?
  }

  /** `run_once` as a function of the state it starts from. */
  function Step(s: StateRecord, settings: Settings, input: CycleInput): Outcome {
    var now := input.now;
    var cooldown := CooldownSeconds(settings.cooldownMinutes);
    match input.fetch
    case TransportError(reason) =>
      if ShouldSendAlert(s.lastAlert, FetchFailed, cooldown, input.elapsed) then
        var alerted := s.(lastAlert := Some(NewAlert(FetchFailed, now, FetchFailedPrefix + reason)));
        Outcome(alerted.(lastCheckedAt := Some(now)), true, Retry, Some(AlertMessage(FetchFailed)))
      else Outcome(s, false, Retry, None)
    case Response(status, url, urlPath, html, page) =>
      if IsStopStatus(status) then
        var kind := StopKind(status);
        var alerted := s.(lastAlert := Some(NewAlert(kind, now, HttpDetail(status, url))));
        Outcome(alerted.(lastCheckedAt := Some(now)), true, Stop(1), Some(AlertMessage(kind)))
      else if LooksLikeLoginPage(urlPath, html) then
        var alerted := s.(lastAlert := Some(NewAlert(CookieInvalid, now, LoginDetail(status, url))));
        Outcome(alerted.(lastCheckedAt := Some(now)), true, Stop(1), Some(AlertMessage(CookieInvalid)))
      else if status != 200 then
        var send := ShouldSendAlert(s.lastAlert, HttpError, cooldown, input.elapsed);
        var alerted := if send then s.(lastAlert := Some(NewAlert(HttpError, now, HttpDetail(status, url)))) else s;
        Outcome(alerted.(lastCheckedAt := Some(now)), true, Retry, if send then Some(AlertMessage(HttpError)) else None)
      else
        var posts := ParsedPosts(page, settings.join);
        if posts == [] then
          var send := ShouldSendAlert(s.lastAlert, ParseFailed, cooldown, input.elapsed);
          var alerted := if send then s.(lastAlert := Some(NewAlert(ParseFailed, now, ParseFailedDetail))) else s;
          Outcome(alerted.(lastCheckedAt := Some(now)), true, Retry, if send then Some(AlertMessage(ParseFailed)) else None)
        else
          var newest := posts[0].postId;
          if s.lastId.None? || s.lastId.value == [] then
            Outcome(s.(lastId := Some(newest), lastCheckedAt := Some(now)), true, Success, None)
          else
            var delta := NewPosts(posts, s.lastId.value, settings.maxNotify);
            if delta.posts == [] then
              Outcome(s.(lastCheckedAt := Some(now)), true, Success, None)
            else if !Delivered(settings, input.send) then
              Outcome(s, false, Retry, Some(UpdateMessage(|delta.posts|)))
            else
              Outcome(s.(lastId := Some(newest), lastCheckedAt := Some(now)), true, Success, Some(UpdateMessage(|delta.posts|)))
  }

  // ---------------------------------------------------------------------
  // properties of a cycle

  /** A cycle stops exactly on status 401, 403 or 429 or on a login page;
      it then records the matching alert kind without any cooldown check,
      saves, and yields exit code 1 without touching `last_id`. */
  lemma StopSavesFirst(s: StateRecord, settings: Settings, input: CycleInput)
    ensures Step(s, settings, input).result.Stop? <==>
      input.fetch.Response? && (IsStopStatus(input.fetch.status) || LooksLikeLoginPage(input.fetch.urlPath, input.fetch.html))
    ensures var o := Step(s, settings, input);
      o.result.Stop? ==>
        && o.result.code == 1
        && o.saved
        && o.state.lastId == s.lastId
        && o.state.lastCheckedAt == Some(input.now)
        && o.state.lastAlert.Some?
        && o.state.lastAlert.value.at == Some(input.now)
        && o.state.lastAlert.value.kind == Some(KindName(
             if input.fetch.status == 429 then RateLimited
             else if input.fetch.status == 403 then Forbidden
             else if input.fetch.status == 401 then Unauthorized
             else CookieInvalid))
  {
  }

  /** Any other status than 200 is retried, never stopped on; the check
      time is always recorded and saved. */
  lemma OtherStatusRetries(s: StateRecord, settings: Settings, input: CycleInput)
    requires input.fetch.Response? && input.fetch.status != 200 && !IsStopStatus(input.fetch.status)
    requires !LooksLikeLoginPage(input.fetch.urlPath, input.fetch.html)
    ensures var o := Step(s, settings, input);
      && o.result == Retry
      && o.saved
      && o.state.lastId == s.lastId
      && o.state.lastCheckedAt == Some(input.now)
  {
  }

  /** A failed fetch is retried. When its alert is within the cooldown,
      nothing at all changes and nothing is saved; otherwise the alert is
      recorded, the check time set and the state saved. */
  lemma FetchFailureGating(s: StateRecord, settings: Settings, input: CycleInput)
    requires input.fetch.TransportError?
    ensures var o := Step(s, settings, input);
      && o.result == Retry
      && o.state.lastId == s.lastId
      && (!ShouldSendAlert(s.lastAlert, FetchFailed, CooldownSeconds(settings.cooldownMinutes), input.elapsed) ==>
            o.state == s && !o.saved && o.message.None?)
      && (ShouldSendAlert(s.lastAlert, FetchFailed, CooldownSeconds(settings.cooldownMinutes), input.elapsed) ==>
            o.saved && o.message == Some(AlertMessage(FetchFailed))
            && o.state.lastAlert == Some(NewAlert(FetchFailed, input.now, FetchFailedPrefix + input.fetch.reason)))
  {
  }

  /** An alert message goes out only for a stop or an alert outside its
      cooldown. */
  lemma AlertsRespectCooldown(s: StateRecord, settings: Settings, input: CycleInput)
    ensures var o := Step(s, settings, input);
      o.message.Some? && o.message.value.AlertMessage? && !o.result.Stop? ==>
        ShouldSendAlert(s.lastAlert, o.message.value.kind, CooldownSeconds(settings.cooldownMinutes), input.elapsed)
  {
    match input.fetch
    case TransportError(_) =>
    case Response(status, _, urlPath, html, _) =>
      if IsStopStatus(status) {
      } else if LooksLikeLoginPage(urlPath, html) {
      } else if status != 200 {
      }
  }

  /** Every alert a cycle stores is the one it announces, with at most 200
      characters of detail. */
  lemma StoredAlertIsAnnounced(s: StateRecord, settings: Settings, input: CycleInput)
    ensures var o := Step(s, settings, input);
      o.state.lastAlert != s.lastAlert ==>
        && o.state.lastAlert.Some? && |o.state.lastAlert.value.detail| <= DetailLimit
        && o.message.Some? && o.message.value.AlertMessage?
        && o.state.lastAlert.value.kind == Some(KindName(o.message.value.kind))
  {
    match input.fetch
    case TransportError(_) =>
    case Response(status, _, urlPath, html, _) =>
      if IsStopStatus(status) {
      } else if LooksLikeLoginPage(urlPath, html) {
      } else if status != 200 {
      }
  }

  /** Whenever a cycle leaves the state unsaved it leaves it unchanged, so
      a state in step with its file stays in step. */
  lemma UnsavedMeansUnchanged(s: StateRecord, settings: Settings, input: CycleInput)
    ensures !Step(s, settings, input).saved ==> Step(s, settings, input).state == s
  {
  }

  /** On a page of posts, with a stored `last_id`: the message announces
      exactly the new posts, and there is none when nothing is new. */
  lemma DeltaRule(s: StateRecord, settings: Settings, input: CycleInput)
    requires input.fetch.Response? && input.fetch.status == 200
    requires !LooksLikeLoginPage(input.fetch.urlPath, input.fetch.html)
    requires ParsedPosts(input.fetch.page, settings.join) != []
    requires s.lastId.Some? && s.lastId.value != []
    ensures var posts := ParsedPosts(input.fetch.page, settings.join);
      var delta := NewPosts(posts, s.lastId.value, settings.maxNotify);
      var o := Step(s, settings, input);
      && (delta.posts == [] <==> posts[0].postId == s.lastId.value)
      && (delta.posts == [] ==> o.message.None? && o.result == Success && o.state.lastId == s.lastId && o.saved)
      && (delta.posts != [] ==> o.message == Some(UpdateMessage(|delta.posts|)))
  {
    NothingNewIffNewestIsLast(ParsedPosts(input.fetch.page, settings.join), s.lastId.value, settings.maxNotify);
  }

  /** The first run only records the newest id: no message, result 0. */
  lemma FirstRunIsSilent(s: StateRecord, settings: Settings, input: CycleInput)
    requires input.fetch.Response? && input.fetch.status == 200
    requires !LooksLikeLoginPage(input.fetch.urlPath, input.fetch.html)
    requires ParsedPosts(input.fetch.page, settings.join) != []
    requires s.lastId.None? || s.lastId.value == []
    ensures var o := Step(s, settings, input);
      && o.message.None? && o.result == Success && o.saved
      && o.state.lastId == Some(ParsedPosts(input.fetch.page, settings.join)[0].postId)
  {
  }

  /** `last_id` moves only to the newest post of a parsed page, only on a
      result of 0 with the state saved, and, unless this is the first run,
      only once the update message was delivered. */
  lemma LastIdAdvancesOnlyAfterDelivery(s: StateRecord, settings: Settings, input: CycleInput)
    ensures var o := Step(s, settings, input);
      o.state.lastId != s.lastId ==>
        && o.result == Success && o.saved
        && input.fetch.Response? && input.fetch.status == 200
        && ParsedPosts(input.fetch.page, settings.join) != []
        && o.state.lastId == Some(ParsedPosts(input.fetch.page, settings.join)[0].postId)
        && (s.lastId.None? || s.lastId.value == [] ||
            (o.message.Some? && o.message.value.UpdateMessage? && Delivered(settings, input.send)))
  {
  }

  /** A failed delivery returns 1 and changes nothing: neither `last_id`,
      nor the check time, nor the file. */
  lemma FailedDeliveryKeepsState(s: StateRecord, settings: Settings, input: CycleInput)
    requires !Delivered(settings, input.send)
    ensures var o := Step(s, settings, input);
      o.message.Some? && o.message.value.UpdateMessage? ==>
        o.result == Retry && !o.saved && o.state == s
  {
  }

  /** A delivered update moves `last_id` to the newest post and saves. */
  lemma DeliveredUpdateAdvances(s: StateRecord, settings: Settings, input: CycleInput)
    requires Delivered(settings, input.send)
    ensures var o := Step(s, settings, input);
      o.message.Some? && o.message.value.UpdateMessage? ==>
        && o.result == Success && o.saved
        && o.state.lastCheckedAt == Some(input.now)
        && o.state.lastId == Some(ParsedPosts(input.fetch.page, settings.join)[0].postId)
  {
  }

  /** Running again on the same page after a cycle that returned 0 finds
      nothing new and keeps `last_id`: a repeated run is idempotent. */
  lemma RepeatRunIsQuiet(s: StateRecord, settings: Settings, input: CycleInput, later: CycleInput)
    requires Step(s, settings, input).result == Success
    requires later.fetch == input.fetch
    ensures var o := Step(s, settings, input);
      var o2 := Step(o.state, settings, later);
      && o2.message.None? && o2.result == Success
      && o2.state.lastId == o.state.lastId
  {
    var o := Step(s, settings, input);
    var posts := ParsedPosts(input.fetch.page, settings.join);
    assert input.fetch.Response? && posts != [];
    ParsedPostsWellFormed(input.fetch.page, settings.join);
    assert IsPostId(posts[0].postId);
    assert o.state.lastId.value == posts[0].postId by {
      if o.state.lastId == s.lastId {
        assert s.lastId.Some? && s.lastId.value != [];
        NothingNewIffNewestIsLast(posts, s.lastId.value, settings.maxNotify);
      }
    }
    assert o.state.lastId.value != [];
    NothingNewIffNewestIsLast(posts, posts[0].postId, settings.maxNotify);
  }

  // ---------------------------------------------------------------------
  // the state dict and run_once

  /** The monitor's state dict, updated in place by `run_once`. `persisted`
      is what the state file holds: `save_state` copies the state into it. */
  class MonitorState {
    var lastId: Option<string>
    var lastCheckedAt: Option<string>
    var lastAlert: Option<StoredAlert>
    ghost var persisted: StateRecord

    function Snapshot(): StateRecord
      reads this
    {
      StateRecord(lastId, lastCheckedAt, lastAlert)
    }

    /** The state as `load_state` returned it, which is also what the file
        holds. */
    constructor(loaded: StateRecord)
      ensures Snapshot() == loaded && persisted == loaded
    {
      lastId := loaded.lastId;
      lastCheckedAt := loaded.lastCheckedAt;
      lastAlert := loaded.lastAlert;
      persisted := loaded;
    }

    /** `set_alert`: overwrite the single `last_alert` slot. */
    method SetAlert(kind: AlertKind, now: string, detail: string)
      modifies this
      ensures lastAlert == Some(NewAlert(kind, now, detail))
      ensures lastId == old(lastId) && lastCheckedAt == old(lastCheckedAt) && persisted == old(persisted)
    {
      lastAlert := Some(NewAlert(kind, now, detail));
    }

    /** `save_state`: the file now holds the in-memory state. */
    method Save()
      modifies this
      ensures persisted == Snapshot()
      ensures lastId == old(lastId) && lastCheckedAt == old(lastCheckedAt) && lastAlert == old(lastAlert)
    {
      persisted := Snapshot();
    }

    /** An alert that is sent only outside its cooldown (`http_error`,
        `parse_failed`): record it if it was sent, then always record the
        check time and save. */
    method CooldownAlert(kind: AlertKind, cooldown: int, elapsed: Option<int>, now: string, detail: string)
      returns (message: Option<Message>)
      modifies this
      ensures var send := ShouldSendAlert(old(lastAlert), kind, cooldown, elapsed);
        && message == (if send then Some(AlertMessage(kind)) else None)
        && lastAlert == (if send then Some(NewAlert(kind, now, detail)) else old(lastAlert))
      ensures lastId == old(lastId) && lastCheckedAt == Some(now) && persisted == Snapshot()
    {
      message := None;
      if ShouldSendAlert(lastAlert, kind, cooldown, elapsed) {
        // the message is printed or posted; a failed post is only logged
        message := Some(AlertMessage(kind));
        SetAlert(kind, now, detail);
      }
      lastCheckedAt := Some(now);
      Save();
    }

    /** A terminal alert (`rate_limited`, `forbidden`, `unauthorized`,
        `cookie_invalid`): always sent and recorded, the check time set, the
        state saved, and then the cycle stops with exit code 1. */
    method StopWith(kind: AlertKind, now: string, detail: string) returns (r: CycleResult, message: Option<Message>)
      modifies this
      ensures r == Stop(1) && message == Some(AlertMessage(kind))
      ensures lastAlert == Some(NewAlert(kind, now, detail))
      ensures lastId == old(lastId) && lastCheckedAt == Some(now) && persisted == Snapshot()
    {
      message := Some(AlertMessage(kind));
      SetAlert(kind, now, detail);
      lastCheckedAt := Some(now);
      Save();
      r := Stop(1);
    }

    /** `run_once`: one check cycle, updating the state in place. */
    method RunOnce(settings: Settings, input: CycleInput) returns (r: CycleResult, message: Option<Message>)
      modifies this
      ensures var o := Step(old(Snapshot()), settings, input);
        && Snapshot() == o.state
        && persisted == (if o.saved then o.state else old(persisted))
        && r == o.result
        && message == o.message
    {
      var now := input.now;
      var cooldown := CooldownSeconds(settings.cooldownMinutes);
      match input.fetch {
        case TransportError(reason) =>
          message := None;
          if ShouldSendAlert(lastAlert, FetchFailed, cooldown, input.elapsed) {
            message := Some(AlertMessage(FetchFailed));
            SetAlert(FetchFailed, now, FetchFailedPrefix + reason);
            lastCheckedAt := Some(now);
            Save();
          }
          r := Retry;
        case Response(status, url, urlPath, html, page) =>
          if IsStopStatus(status) {
            r, message := StopWith(StopKind(status), now, HttpDetail(status, url));
            return;
          }
          if LooksLikeLoginPage(urlPath, html) {
            r, message := StopWith(CookieInvalid, now, LoginDetail(status, url));
            return;
          }
          if status != 200 {
            message := CooldownAlert(HttpError, cooldown, input.elapsed, now, HttpDetail(status, url));
            r := Retry;
            return;
          }
          var posts := ParsePosts(page, settings.join);
          if posts == [] {
            message := CooldownAlert(ParseFailed, cooldown, input.elapsed, now, ParseFailedDetail);
            r := Retry;
            return;
          }
          var newest := posts[0].postId;
          if lastId.None? || lastId.value == [] {
            // first run: remember where the feed stands, announce nothing
            lastId := Some(newest);
            lastCheckedAt := Some(now);
            Save();
            r, message := Success, None;
            return;
          }
          var delta := NewPosts(posts, lastId.value, settings.maxNotify);
          if delta.posts == [] {
            lastCheckedAt := Some(now);
            Save();
            r, message := Success, None;
            return;
          }
          message := Some(UpdateMessage(|delta.posts|));
          if !settings.dryRun && DeliveryVerdict(input.send).Err? {
            r := Retry;
            return;
          }
          lastId := Some(newest);
          lastCheckedAt := Some(now);
          Save();
          r := Success;
      }
    }
  }
}
