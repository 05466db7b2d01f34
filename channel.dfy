/** The notification channel: choosing the one enabled channel from the
    configuration, and judging the Feishu webhook's reply. */
module Channel {
  import opened Common
  import opened Text

  // ---------------------------------------------------------------------
  // feishu_success / send_feishu_text

  /** A decoded JSON value, as `resp.json()` yields it. Integers and
      floats are both numbers. */
  datatype Json =
    | JNull
    | JBool(b: bool)
    | JNum(n: real)
    | JStr(s: string)
    | JArr(items: seq<Json>)
    | JObj(fields: map<string, Json>)

  /** Python's `v == 0`: true for the numbers zero and for `False`
      (a `bool` is an `int` in Python). */
  predicate IsZero(v: Json) {
    v == JNum(0.0) || v == JBool(false)
  }

  /** Python's `d.get(key) == 0` on an object: a missing key reads as
      `None`, which is not zero. */
  predicate KeyIsZero(fields: map<string, Json>, key: string) {
    key in fields && IsZero(fields[key])
  }

  /** `feishu_success`: the reply is an object whose `StatusCode` or, failing
      that, whose `code` equals zero. */
  function FeishuSuccess(reply: Json): (r: bool)
    ensures r ==> reply.JObj?
    ensures reply.JObj? && KeyIsZero(reply.fields, "StatusCode") ==> r
    ensures r <==> reply.JObj? && (KeyIsZero(reply.fields, "StatusCode") || KeyIsZero(reply.fields, "code"))
  {
    match reply
    case JObj(fields) =>
      if KeyIsZero(fields, "StatusCode") then true
      else KeyIsZero(fields, "code")
    case _ => false
  }

  /** Why a delivery failed. */
  datatype SendError =
    | Transport            // the POST itself raised
    | HttpStatus(status: int)
    | NotJson
    | Rejected(reply: Json)

  /** What the webhook POST came back with. `body` is `None` when the reply
      does not decode as JSON. */
  datatype SendOutcome =
    | SendFailed
    | Reply(status: int, body: Option<Json>)

  /** `send_feishu_text`'s verdict on one POST, checked in the source's order:
      transport, then status, then JSON, then the success flag. */
  function DeliveryVerdict(outcome: SendOutcome): (r: Result<(), SendError>)
    ensures r.Ok? <==> outcome.Reply? && outcome.status == 200 && outcome.body.Some? && FeishuSuccess(outcome.body.value)
    ensures outcome.Reply? && outcome.status != 200 ==> r == Err(HttpStatus(outcome.status))
    ensures outcome.Reply? && outcome.status == 200 && outcome.body.None? ==> r == Err(NotJson)
  {
    match outcome
    case SendFailed => Err(Transport)
    case Reply(status, body) =>
      if status != 200 then Err(HttpStatus(status))
      else if body.None? then Err(NotJson)
      else if !FeishuSuccess(body.value) then Err(Rejected(body.value))
      else Ok(())
  }

  /** Concrete replies: either flag at zero succeeds, `false` counts as zero,
      and a non-zero status code falls back to `code`. */
  lemma FeishuReplies()
    ensures FeishuSuccess(JObj(map["StatusCode" := JNum(0.0)]))
    ensures FeishuSuccess(JObj(map["code" := JBool(false)]))
    ensures FeishuSuccess(JObj(map["StatusCode" := JNum(19001.0), "code" := JNum(0.0)]))
    ensures !FeishuSuccess(JObj(map["StatusCode" := JNum(19001.0), "code" := JNum(19001.0)]))
    ensures !FeishuSuccess(JObj(map["StatusCode" := JNull]))
    ensures !FeishuSuccess(JArr([JObj(map["code" := JNum(0.0)])]))
  {
    var m1: map<string, Json> := map["StatusCode" := JNum(19001.0), "code" := JNum(0.0)];
    assert KeyIsZero(m1, "code");
    var m2: map<string, Json> := map["StatusCode" := JNum(19001.0), "code" := JNum(19001.0)];
    assert !KeyIsZero(m2, "StatusCode") && !KeyIsZero(m2, "code");
  }

  // ---------------------------------------------------------------------
  // resolve_channel

  /** The value of a text key of a channel entry, as `(v or "").strip()`
      sees it: missing, `None` or another falsy value; a string; or a
      truthy value that is not a string (on which `strip` raises). */
  datatype Field =
    | Falsy
    | Text(s: string)
    | NotText

  /** One element of the `channels` array: not an object, or an object with
      its `enabled` flag (true only for the JSON literal `true`) and its
      `type` and `webhook` keys. */
  datatype Entry =
    | NotObject
    | Object(enabled: bool, kind: Field, webhook: Field)

  /** The `channels` key of the configuration: missing or `null`, present
      but not an array, or an array. */
  datatype ChannelsField =
    | Absent
    | NotList
    | List(entries: seq<Entry>)

  /** The resolved channel. Feishu is the only kind the monitor supports. */
  datatype Target = Feishu(webhook: string)

  datatype ChannelError =
    | ChannelsNotArray
    | NoChannels
    | NotExactlyOneEnabled(count: nat)
    | MissingType
    | MissingWebhook
    | UnsupportedType(kind: string)
    | FieldNotText

  predicate IsEnabled(e: Entry) {
    e.Object? && e.enabled
  }

  /** The enabled entries, in order. */
  function Enabled(entries: seq<Entry>): (r: seq<Entry>)
    ensures |r| <= |entries|
    ensures forall k :: 0 <= k < |r| ==> IsEnabled(r[k]) && r[k] in entries
    ensures forall k :: 0 <= k < |entries| && IsEnabled(entries[k]) ==> entries[k] in r
  {
    if entries == [] then []
    else if IsEnabled(entries[0]) then [entries[0]] + Enabled(entries[1..])
    else Enabled(entries[1..])
  }

  /** `(v or "").strip()`, or an error where `strip` would raise. */
  function FieldText(f: Field): (r: Result<string, ChannelError>)
    ensures r.Ok? ==> r.value == [] || (!IsSpace(r.value[0]) && !IsSpace(r.value[|r.value| - 1]))
    ensures r.Err? <==> f.NotText?
    ensures f.Falsy? ==> r == Ok([])
    ensures f.Text? ==> r == Ok(Strip(f.s))
  {
    match f
    case Falsy => Ok([])
    case Text(s) => Ok(Strip(s))
    case NotText => Err(FieldNotText)
  }

  /** `resolve_channel`: a non-blank `--webhook` wins; otherwise exactly one
      entry of `channels` must be enabled, with a non-blank type `feishu`
      and a non-blank webhook. */
  function ResolveChannel(argWebhook: Option<string>, channels: ChannelsField): (r: Result<Target, ChannelError>)
    ensures r.Ok? ==> r.value.webhook != [] && Strip(r.value.webhook) == r.value.webhook
    ensures argWebhook.Some? && Strip(argWebhook.value) != [] ==> r == Ok(Feishu(Strip(argWebhook.value)))
    ensures channels.NotList? && (argWebhook.None? || Strip(argWebhook.value) == []) ==> r == Err(ChannelsNotArray)
    ensures r.Ok? && (argWebhook.None? || Strip(argWebhook.value) == []) ==>
      channels.List? && |Enabled(channels.entries)| == 1
    ensures (argWebhook.None? || Strip(argWebhook.value) == []) && (channels.Absent? || channels == List([])) ==>
      r == Err(NoChannels)
    ensures ((argWebhook.None? || Strip(argWebhook.value) == []) && channels.List? && channels.entries != []
             && |Enabled(channels.entries)| != 1) ==>
              r == Err(NotExactlyOneEnabled(|Enabled(channels.entries)|))
  {
    var arg := if argWebhook.Some? then Strip(argWebhook.value) else [];
    if arg != [] then Ok(Feishu(arg))
    else
      var entries := match channels
        case Absent => Ok([])
        case NotList => Err(ChannelsNotArray)
        case List(es) => Ok(es);
      if entries.Err? then Err(entries.error)
      else if entries.value == [] then Err(NoChannels)
      else
        var enabled := Enabled(entries.value);
        if |enabled| != 1 then Err(NotExactlyOneEnabled(|enabled|))
        else
          var kind := FieldText(enabled[0].kind);
          if kind.Err? then Err(kind.error)
          else if kind.value == [] then Err(MissingType)
          else if kind.value != "feishu" then Err(UnsupportedType(kind.value))
          else
            var hook := FieldText(enabled[0].webhook);
            if hook.Err? then Err(hook.error)
            else if hook.value == [] then Err(MissingWebhook)
            else
              StripOfStripped(hook.value);
              Ok(Feishu(hook.value))
  }

  /** A string without whitespace at either end strips to itself. */
  lemma StripOfStripped(s: string)
    requires s == [] || (!IsSpace(s[0]) && !IsSpace(s[|s| - 1]))
    ensures Strip(s) == s
  {
  }

  /** The index of the only enabled entry, when there is exactly one. */
  lemma {:induction false} SoleEnabled(entries: seq<Entry>) returns (i: nat)
    requires |Enabled(entries)| == 1
    ensures i < |entries| && entries[i] == Enabled(entries)[0] && IsEnabled(entries[i])
    ensures forall j :: 0 <= j < |entries| && j != i ==> !IsEnabled(entries[j])
  {
    if IsEnabled(entries[0]) {
      i := 0;
      NoneEnabled(entries[1..]);
    } else {
      var k := SoleEnabled(entries[1..]);
      i := k + 1;
    }
  }

  lemma {:induction false} NoneEnabled(entries: seq<Entry>)
    requires Enabled(entries) == []
    ensures forall j :: 0 <= j < |entries| ==> !IsEnabled(entries[j])
  {
    if entries != [] {
      NoneEnabled(entries[1..]);
      forall j | 0 <= j < |entries| ensures !IsEnabled(entries[j]) {
        if j > 0 { assert entries[j] == entries[1..][j - 1]; }
      }
    }
  }

  /** `idx` lists, in increasing order, the positions of `entries` whose
      entries are `kept`, and it lists every enabled position. */
  ghost predicate EnabledPositions(entries: seq<Entry>, kept: seq<Entry>, idx: seq<nat>) {
    && |idx| == |kept|
    && (forall k :: 0 <= k < |idx| ==> idx[k] < |entries| && kept[k] == entries[idx[k]])
    && (forall k, l :: 0 <= k < l < |idx| ==> idx[k] < idx[l])
    && (forall j :: 0 <= j < |entries| && IsEnabled(entries[j]) ==> j in idx)
  }

  /** `Enabled` keeps every enabled entry, in order: its result is the
      entries at some strictly increasing list of positions that covers
      every enabled position. */
  lemma {:induction false} EnabledInOrder(entries: seq<Entry>) returns (idx: seq<nat>)
    ensures EnabledPositions(entries, Enabled(entries), idx)
  {
    if entries == [] {
      idx := [];
    } else {
      var rest := EnabledInOrder(entries[1..]);
      var shifted := Shifted(entries, Enabled(entries[1..]), rest);
      idx := ShiftPositions(entries, Enabled(entries[1..]), shifted);
    }
  }

  /** One step of `EnabledInOrder`: the tail's positions, already moved
      up by one, with position 0 in front when the head is enabled. */
  lemma ShiftPositions(entries: seq<Entry>, tail: seq<Entry>, shifted: seq<nat>) returns (idx: seq<nat>)
    requires entries != []
    requires |shifted| == |tail|
    requires forall k :: 0 <= k < |shifted| ==> 1 <= shifted[k] < |entries| && tail[k] == entries[shifted[k]]
    requires forall k, l :: 0 <= k < l < |shifted| ==> shifted[k] < shifted[l]
    requires forall j :: 1 <= j < |entries| && IsEnabled(entries[j]) ==> j in shifted
    ensures EnabledPositions(entries, if IsEnabled(entries[0]) then [entries[0]] + tail else tail, idx)
  {
    if IsEnabled(entries[0]) {
      idx := ConsPositions(entries, tail, shifted);
    } else {
      idx := shifted;
    }
  }

  lemma ConsPositions(entries: seq<Entry>, tail: seq<Entry>, shifted: seq<nat>) returns (idx: seq<nat>)
    requires entries != [] && IsEnabled(entries[0])
    requires |shifted| == |tail|
    requires forall k :: 0 <= k < |shifted| ==> 1 <= shifted[k] < |entries| && tail[k] == entries[shifted[k]]
    requires forall k, l :: 0 <= k < l < |shifted| ==> shifted[k] < shifted[l]
    requires forall j :: 1 <= j < |entries| && IsEnabled(entries[j]) ==> j in shifted
    ensures EnabledPositions(entries, [entries[0]] + tail, idx)
  {
    idx := [0] + shifted;
    var kept := [entries[0]] + tail;
    assert forall k :: 1 <= k < |idx| ==> idx[k] == shifted[k - 1] && kept[k] == tail[k - 1];
    forall j | 0 <= j < |entries| && IsEnabled(entries[j]) ensures j in idx {
      if j == 0 {
        assert idx[0] == 0;
      } else {
        assert j in shifted;
      }
    }
  }

  /** The tail's positions, moved up by one to index `entries` itself. */
  lemma Shifted(entries: seq<Entry>, tail: seq<Entry>, rest: seq<nat>) returns (shifted: seq<nat>)
    requires entries != []
    requires EnabledPositions(entries[1..], tail, rest)
    ensures |shifted| == |tail|
    ensures forall k :: 0 <= k < |shifted| ==> 1 <= shifted[k] < |entries| && tail[k] == entries[shifted[k]]
    ensures forall k, l :: 0 <= k < l < |shifted| ==> shifted[k] < shifted[l]
    ensures forall j :: 1 <= j < |entries| && IsEnabled(entries[j]) ==> j in shifted
  {
    shifted := seq(|rest|, k requires 0 <= k < |rest| => rest[k] + 1);
    forall k | 0 <= k < |shifted|
      ensures shifted[k] < |entries| && tail[k] == entries[shifted[k]]
    {
      assert entries[1..][rest[k]] == entries[shifted[k]];
    }
    forall j | 1 <= j < |entries| && IsEnabled(entries[j]) ensures j in shifted {
      assert entries[1..][j - 1] == entries[j];
      var k :| 0 <= k < |rest| && rest[k] == j - 1;
      assert shifted[k] == j;
    }
  }

  /** When only the entry at `i` is enabled, it is the one enabled entry. */
  lemma {:induction false} OnlyEnabled(entries: seq<Entry>, i: nat)
    requires i < |entries| && IsEnabled(entries[i])
    requires forall j :: 0 <= j < |entries| && j != i ==> !IsEnabled(entries[j])
    ensures Enabled(entries) == [entries[i]]
  {
    if i == 0 {
      NoneEnabledAfter(entries[1..]);
    } else {
      assert !IsEnabled(entries[0]);
      assert forall j :: 0 <= j < |entries[1..]| && j != i - 1 ==> !IsEnabled(entries[1..][j]) by {
        forall j | 0 <= j < |entries[1..]| && j != i - 1 ensures !IsEnabled(entries[1..][j]) {
          assert entries[1..][j] == entries[j + 1];
        }
      }
      OnlyEnabled(entries[1..], i - 1);
    }
  }

  lemma {:induction false} NoneEnabledAfter(entries: seq<Entry>)
    requires forall j :: 0 <= j < |entries| ==> !IsEnabled(entries[j])
    ensures Enabled(entries) == []
  {
    if entries != [] {
      assert forall j :: 0 <= j < |entries[1..]| ==> entries[1..][j] == entries[j + 1];
      NoneEnabledAfter(entries[1..]);
    }
  }

  /** Without a command-line webhook, a single enabled entry of type
      `feishu` with a non-blank webhook resolves to that webhook, stripped. */
  lemma SoleFeishuResolves(argWebhook: Option<string>, channels: ChannelsField, i: nat)
    requires argWebhook.None? || Strip(argWebhook.value) == []
    requires channels.List? && i < |channels.entries| && IsEnabled(channels.entries[i])
    requires forall j :: 0 <= j < |channels.entries| && j != i ==> !IsEnabled(channels.entries[j])
    requires channels.entries[i].kind.Text? && Strip(channels.entries[i].kind.s) == "feishu"
    requires channels.entries[i].webhook.Text? && Strip(channels.entries[i].webhook.s) != []
    ensures ResolveChannel(argWebhook, channels) == Ok(Feishu(Strip(channels.entries[i].webhook.s)))
  {
    OnlyEnabled(channels.entries, i);
  }

  /** Without a command-line webhook, a resolved channel is the configured
      entry that is the only enabled one: its type strips to `feishu` and
      its webhook strips to the resolved webhook. */
  lemma ResolvedIsSoleEnabled(argWebhook: Option<string>, channels: ChannelsField) returns (i: nat)
    requires argWebhook.None? || Strip(argWebhook.value) == []
    requires ResolveChannel(argWebhook, channels).Ok?
    ensures channels.List? && i < |channels.entries|
    ensures IsEnabled(channels.entries[i])
    ensures forall j :: 0 <= j < |channels.entries| && j != i ==> !IsEnabled(channels.entries[j])
    ensures channels.entries[i].kind.Text? && Strip(channels.entries[i].kind.s) == "feishu"
    ensures channels.entries[i].webhook.Text?
    ensures Strip(channels.entries[i].webhook.s) == ResolveChannel(argWebhook, channels).value.webhook
  {
    i := SoleEnabled(channels.entries);
  }
}
