/** The page parser: post-id extraction from links, the item pass with its
    time-link fallback, first-occurrence de-duplication, and the page-wide
    fallback pass. CSS selection, `get_text` and `urljoin` are inputs: a
    page arrives as the nodes the selectors found, and `join` resolves an
    `href` against the base URL. */
module Parser {
  import opened Common
  import opened Text

  /** An `<a href=...>` element: its `href`, its text as
      `get_text(" ", strip=True)` returns it, and its `title` attribute. */
  datatype Anchor = Anchor(href: string, text: string, title: Option<string>)

  /** The `a.user-link` of an item: the texts of its `strong` child and of
      its `span.username` child, each when present. */
  datatype UserLink = UserLink(strong: Option<string>, username: Option<string>)

  /** One `li.activity-item` node. */
  datatype Item = Item(
    timeLink: Option<Anchor>,   // the first `a.time-link` that has an href
    anchors: seq<Anchor>,       // every `a` with an href inside the item, in document order
    userLink: Option<UserLink>, // the first `a.user-link` that has an href
    content: Option<string>,    // text of the first `div.activity-content`
    location: Option<string>)   // text of the first `span.location`

  /** A fetched page as its selectors see it. */
  datatype Page = Page(
    primaryItems: seq<Item>,    // `ul.activities li.activity-item`
    secondaryItems: seq<Item>,  // `li.activity-item`
    anchors: seq<Anchor>)       // every `a` with an href in the document

  datatype Post = Post(
    postId: string,
    url: string,
    authorName: Option<string>,
    authorUsername: Option<string>,
    content: Option<string>,
    timeText: Option<string>,
    timeTitle: Option<string>,
    location: Option<string>)

  // ---------------------------------------------------------------------
  // extract_post_id: re.search(r"/a/([^/?#]+)", href)

  predicate IsIdChar(c: char) {
    c != '/' && c != '?' && c != '#'
  }

  /** A post id as the pattern's group captures it. */
  predicate IsPostId(id: string) {
    id != [] && forall i :: 0 <= i < |id| ==> IsIdChar(id[i])
  }

  /** The pattern matches at index `i`: `/a/` followed by an id character. */
  predicate MatchAt(href: string, i: int) {
    0 <= i && i + 3 < |href| && href[i..i + 3] == "/a/" && IsIdChar(href[i + 3])
  }

  /** The greedy `[^/?#]+` run at the start of `s` (empty if none). */
  function IdRun(s: string): (r: string)
    ensures |r| <= |s| && r == s[..|r|]
    ensures forall i :: 0 <= i < |r| ==> IsIdChar(r[i])
    ensures |r| == |s| || !IsIdChar(s[|r|])
  {
    if s != [] && IsIdChar(s[0]) then [s[0]] + IdRun(s[1..]) else []
  }

  /** The leftmost match at or after `i`, as `re.search` scans. */
  function FirstMatchFrom(href: string, i: nat): (r: Option<nat>)
    ensures r.Some? ==> i <= r.value && MatchAt(href, r.value)
    ensures r.Some? ==> forall k :: i <= k < r.value ==> !MatchAt(href, k)
    ensures r.None? ==> forall k :: i <= k ==> !MatchAt(href, k)
    decreases |href| - i
  {
    if i + 3 >= |href| then None
    else if MatchAt(href, i) then Some(i)
    else FirstMatchFrom(href, i + 1)
  }

  /** `extract_post_id`: the id captured at the leftmost match, or `None`
      when `href` contains no `/a/<id>`. */
  function ExtractPostId(href: string): (r: Option<string>)
    ensures r.Some? ==> IsPostId(r.value)
  {
    match FirstMatchFrom(href, 0)
    case None => None
    case Some(i) => Some(IdRun(href[i + 3..]))
  }

  /** The extracted id is exactly the greedy run after the leftmost `/a/`
      that is followed by an id character; there is none only when no such
      `/a/` exists. */
  lemma ExtractPostIdIsLeftmostMatch(href: string)
    ensures ExtractPostId(href).None? <==> forall k :: !MatchAt(href, k)
    ensures ExtractPostId(href).Some? ==> Contains(href, "/a/" + ExtractPostId(href).value)
    ensures ExtractPostId(href).Some? ==>
      var id := ExtractPostId(href).value;
      var i := FirstMatchFrom(href, 0).value;
      && (forall k :: 0 <= k < i ==> !MatchAt(href, k))
      && i + 3 + |id| <= |href|
      && href[i..i + 3 + |id|] == "/a/" + id
      && (i + 3 + |id| == |href| || !IsIdChar(href[i + 3 + |id|]))
  {
    match FirstMatchFrom(href, 0)
    case None =>
    case Some(i) =>
      var id := IdRun(href[i + 3..]);
      assert href[i..i + 3 + |id|] == "/a/" + id;
      assert OccursAt(href, "/a/" + id, i);
  }

  predicate HasId(a: Anchor) {
    ExtractPostId(a.href).Some?
  }

  // ---------------------------------------------------------------------
  // first_link_with_activity_id and the choice of an item's time link

  /** The index of the first anchor whose link carries a post id. */
  function FirstIdIndex(anchors: seq<Anchor>): (r: Option<nat>)
    ensures r.Some? ==> r.value < |anchors| && HasId(anchors[r.value])
    ensures r.Some? ==> forall k :: 0 <= k < r.value ==> !HasId(anchors[k])
    ensures r.None? ==> forall k :: 0 <= k < |anchors| ==> !HasId(anchors[k])
  {
    if anchors == [] then None
    else if HasId(anchors[0]) then Some(0)
    else match FirstIdIndex(anchors[1..])
      case None => None
      case Some(i) => Some(i + 1)
  }

  /** The first anchor whose href carries an id, if any. */
  function FirstIdAnchor(anchors: seq<Anchor>): (r: Option<Anchor>)
    ensures r.Some? <==> FirstIdIndex(anchors).Some?
    ensures r.Some? ==> r.value == anchors[FirstIdIndex(anchors).value]
  {
    match FirstIdIndex(anchors)
    case None => None
    case Some(i) => Some(anchors[i])
  }

  /** `first_link_with_activity_id`: scan the item's anchors in document
      order and stop at the first whose link carries a post id. */
  method FirstLinkWithActivityId(anchors: seq<Anchor>) returns (r: Option<Anchor>)
    ensures r.None? <==> forall k :: 0 <= k < |anchors| ==> !HasId(anchors[k])
    ensures r.Some? ==> HasId(r.value)
    ensures r == FirstIdAnchor(anchors)
  {
    var i := 0;
    while i < |anchors|
      invariant 0 <= i <= |anchors|
      invariant forall k :: 0 <= k < i ==> !HasId(anchors[k])
    {
      if ExtractPostId(anchors[i].href).Some? {
        assert FirstIdIndex(anchors) == Some(i);
        return Some(anchors[i]);
      }
      i := i + 1;
    }
    return None;
  }

  /** The link an item's post is read from: its time link when that
      carries a post id, otherwise the first anchor in the item that does. */
  function ChooseTimeLink(item: Item): (r: Option<Anchor>)
    ensures r.Some? ==> HasId(r.value)
    ensures item.timeLink.Some? && HasId(item.timeLink.value) ==> r == item.timeLink
    ensures r.None? <==>
      (item.timeLink.None? || !HasId(item.timeLink.value))
      && forall k :: 0 <= k < |item.anchors| ==> !HasId(item.anchors[k])
    ensures !(item.timeLink.Some? && HasId(item.timeLink.value)) ==> r == FirstIdAnchor(item.anchors)
  {
    if item.timeLink.Some? && HasId(item.timeLink.value) then item.timeLink
    else FirstIdAnchor(item.anchors)
  }

  /** An optional `get_text` result, normalised when present. */
  function NormalizedText(text: Option<string>): Option<string> {
    match text
    case None => None
    case Some(t) => Some(NormalizeWhitespace(t))
  }

  /** The post an item yields through the link `link`, whose id is `postId`;
      an empty time text becomes `None`. */
  function ItemPost(item: Item, link: Anchor, postId: string, join: string -> string): Post {
    var timeText := NormalizeWhitespace(link.text);
    Post(
      postId,
      join(link.href),
      if item.userLink.Some? then NormalizedText(item.userLink.value.strong) else None,
      if item.userLink.Some? then NormalizedText(item.userLink.value.username) else None,
      NormalizedText(item.content),
      if timeText == "" then None else Some(timeText),
      NormalizedText(link.title),
      NormalizedText(item.location))
  }

  /** What one item contributes before de-duplication. */
  function ItemCandidate(item: Item, join: string -> string): (r: Option<Post>)
    ensures r.Some? <==> ChooseTimeLink(item).Some?
    ensures r.Some? ==> Some(r.value.postId) == ExtractPostId(ChooseTimeLink(item).value.href)
    ensures r.Some? ==> r.value.url == join(ChooseTimeLink(item).value.href) && TextsNormalized(r.value)
    ensures r.Some? ==>
      && (r.value.timeText.None? <==> NormalizeWhitespace(ChooseTimeLink(item).value.text) == [])
      && (r.value.timeText.Some? ==> r.value.timeText.value == NormalizeWhitespace(ChooseTimeLink(item).value.text))
  {
    match ChooseTimeLink(item)
    case None => None
    case Some(link) =>
      ItemPostNormalized(item, link, ExtractPostId(link.href).value, join);
      Some(ItemPost(item, link, ExtractPostId(link.href).value, join))
  }

  /** Every text field a post holds is in normal form, and a time text,
      when there is one, is not empty. */
  predicate TextsNormalized(p: Post) {
    && (p.authorName.Some? ==> IsNormalized(p.authorName.value))
    && (p.authorUsername.Some? ==> IsNormalized(p.authorUsername.value))
    && (p.content.Some? ==> IsNormalized(p.content.value))
    && (p.timeText.Some? ==> IsNormalized(p.timeText.value) && p.timeText.value != [])
    && (p.timeTitle.Some? ==> IsNormalized(p.timeTitle.value))
    && (p.location.Some? ==> IsNormalized(p.location.value))
  }

  lemma NormalizedTextIsNormalized(text: Option<string>)
    ensures NormalizedText(text).Some? ==> IsNormalized(NormalizedText(text).value)
  {
    if text.Some? {
      NormalizeIsNormalized(text.value);
    }
  }

  lemma ItemPostNormalized(item: Item, link: Anchor, postId: string, join: string -> string)
    ensures TextsNormalized(ItemPost(item, link, postId, join))
  {
    if item.userLink.Some? {
      NormalizedTextIsNormalized(item.userLink.value.strong);
      NormalizedTextIsNormalized(item.userLink.value.username);
    }
    NormalizedTextIsNormalized(item.content);
    NormalizeIsNormalized(link.text);
    NormalizedTextIsNormalized(link.title);
    NormalizedTextIsNormalized(item.location);
  }

  /** What one anchor contributes to the page-wide fallback: a post with
      every optional field `None`. */
  function AnchorCandidate(a: Anchor, join: string -> string): (r: Option<Post>)
    ensures r.Some? <==> HasId(a)
    ensures r.Some? ==> Some(r.value.postId) == ExtractPostId(a.href) && Minimal(r.value)
  {
    match ExtractPostId(a.href)
    case None => None
    case Some(id) => Some(Post(id, join(a.href), None, None, None, None, None, None))
  }

  predicate Minimal(p: Post) {
    p.authorName.None? && p.authorUsername.None? && p.content.None?
    && p.timeText.None? && p.timeTitle.None? && p.location.None?
  }

  // ---------------------------------------------------------------------
  // De-duplication by first occurrence

  predicate CarriesId(c: Option<Post>, id: string) {
    c.Some? && c.value.postId == id
  }

  function Ids(posts: seq<Post>): (r: seq<string>)
    ensures |r| == |posts| && forall k :: 0 <= k < |posts| ==> r[k] == posts[k].postId
  {
    seq(|posts|, k requires 0 <= k < |posts| => posts[k].postId)
  }

  predicate DistinctIds(posts: seq<Post>) {
    forall i, j :: 0 <= i < j < |posts| ==> posts[i].postId != posts[j].postId
  }

  /** The candidates kept, in order: each one whose id is neither in `seen`
      nor carried by an earlier kept candidate. */
  function KeepFirst(cands: seq<Option<Post>>, seen: set<string>): seq<Post> {
    if cands == [] then []
    else if cands[0].Some? && cands[0].value.postId !in seen then
      [cands[0].value] + KeepFirst(cands[1..], seen + {cands[0].value.postId})
    else KeepFirst(cands[1..], seen)
  }

  /** The index of the first candidate that carries `id`. */
  function FirstWithId(cands: seq<Option<Post>>, id: string): (r: Option<nat>)
    ensures r.Some? ==> r.value < |cands| && CarriesId(cands[r.value], id)
    ensures r.Some? ==> forall j :: 0 <= j < r.value ==> !CarriesId(cands[j], id)
    ensures r.None? ==> forall j :: 0 <= j < |cands| ==> !CarriesId(cands[j], id)
  {
    if cands == [] then None
    else if CarriesId(cands[0], id) then Some(0)
    else match FirstWithId(cands[1..], id)
      case None => None
      case Some(i) => Some(i + 1)
  }

  /** Kept ids are pairwise distinct and none was already seen. */
  lemma {:induction false} KeepFirstDistinct(cands: seq<Option<Post>>, seen: set<string>)
    ensures DistinctIds(KeepFirst(cands, seen))
    ensures forall k :: 0 <= k < |KeepFirst(cands, seen)| ==> KeepFirst(cands, seen)[k].postId !in seen
  {
    if cands != [] {
      if cands[0].Some? && cands[0].value.postId !in seen {
        KeepFirstDistinct(cands[1..], seen + {cands[0].value.postId});
      } else {
        KeepFirstDistinct(cands[1..], seen);
      }
    }
  }

  /** Every kept post is the candidate at the first occurrence of its id. */
  lemma {:induction false} KeepFirstAtFirstOccurrence(cands: seq<Option<Post>>, seen: set<string>, k: nat)
    requires k < |KeepFirst(cands, seen)|
    ensures FirstWithId(cands, KeepFirst(cands, seen)[k].postId).Some?
    ensures cands[FirstWithId(cands, KeepFirst(cands, seen)[k].postId).value] == Some(KeepFirst(cands, seen)[k])
  {
    var r := KeepFirst(cands, seen);
    var id := r[k].postId;
    if cands[0].Some? && cands[0].value.postId !in seen {
      var h := cands[0].value.postId;
      if k > 0 {
        KeepFirstAtFirstOccurrence(cands[1..], seen + {h}, k - 1);
        KeepFirstDistinct(cands[1..], seen + {h});
        assert r[k] == KeepFirst(cands[1..], seen + {h})[k - 1];
        assert !CarriesId(cands[0], id);
      }
    } else {
      KeepFirstAtFirstOccurrence(cands[1..], seen, k);
      KeepFirstDistinct(cands[1..], seen);
      assert !CarriesId(cands[0], id);
    }
  }

  /** Kept posts follow the document order of their first occurrences. */
  lemma {:induction false} KeepFirstInOrder(cands: seq<Option<Post>>, seen: set<string>, k1: nat, k2: nat)
    requires k1 < k2 < |KeepFirst(cands, seen)|
    ensures FirstWithId(cands, KeepFirst(cands, seen)[k1].postId).Some?
    ensures FirstWithId(cands, KeepFirst(cands, seen)[k2].postId).Some?
    ensures FirstWithId(cands, KeepFirst(cands, seen)[k1].postId).value
          < FirstWithId(cands, KeepFirst(cands, seen)[k2].postId).value
  {
    var r := KeepFirst(cands, seen);
    KeepFirstAtFirstOccurrence(cands, seen, k1);
    KeepFirstAtFirstOccurrence(cands, seen, k2);
    if cands[0].Some? && cands[0].value.postId !in seen {
      var h := cands[0].value.postId;
      var rest := KeepFirst(cands[1..], seen + {h});
      KeepFirstDistinct(cands[1..], seen + {h});
      assert r[k2] == rest[k2 - 1];
      assert !CarriesId(cands[0], r[k2].postId);
      if k1 > 0 {
        assert r[k1] == rest[k1 - 1];
        assert !CarriesId(cands[0], r[k1].postId);
        KeepFirstInOrder(cands[1..], seen + {h}, k1 - 1, k2 - 1);
      }
    } else {
      KeepFirstDistinct(cands[1..], seen);
      assert !CarriesId(cands[0], r[k1].postId) && !CarriesId(cands[0], r[k2].postId);
      KeepFirstInOrder(cands[1..], seen, k1, k2);
    }
  }

  /** No candidate is lost: every id not seen before is kept. */
  lemma {:induction false} KeepFirstComplete(cands: seq<Option<Post>>, seen: set<string>, i: nat)
    requires i < |cands| && cands[i].Some? && cands[i].value.postId !in seen
    ensures cands[i].value.postId in Ids(KeepFirst(cands, seen))
  {
    var r := KeepFirst(cands, seen);
    var id := cands[i].value.postId;
    if cands[0].Some? && cands[0].value.postId !in seen {
      var h := cands[0].value.postId;
      if id == h {
        assert Ids(r)[0] == id;
      } else {
        KeepFirstComplete(cands[1..], seen + {h}, i - 1);
        var rest := KeepFirst(cands[1..], seen + {h});
        var k :| 0 <= k < |rest| && Ids(rest)[k] == id;
        assert Ids(r)[k + 1] == id;
      }
    } else {
      assert i > 0;
      KeepFirstComplete(cands[1..], seen, i - 1);
    }
  }

  // ---------------------------------------------------------------------
  // parse_posts

  /** The item selector with its fallback selector. */
  function SelectItems(page: Page): seq<Item> {
    if page.primaryItems != [] then page.primaryItems else page.secondaryItems
  }

  function ItemCandidates(items: seq<Item>, join: string -> string): (r: seq<Option<Post>>)
    ensures |r| == |items| && forall i :: 0 <= i < |items| ==> r[i] == ItemCandidate(items[i], join)
  {
    seq(|items|, i requires 0 <= i < |items| => ItemCandidate(items[i], join))
  }

  function AnchorCandidates(anchors: seq<Anchor>, join: string -> string): (r: seq<Option<Post>>)
    ensures |r| == |anchors| && forall i :: 0 <= i < |anchors| ==> r[i] == AnchorCandidate(anchors[i], join)
  {
    seq(|anchors|, i requires 0 <= i < |anchors| => AnchorCandidate(anchors[i], join))
  }

  function ItemPass(page: Page, join: string -> string): seq<Post> {
    KeepFirst(ItemCandidates(SelectItems(page), join), {})
  }

  function FallbackPass(page: Page, join: string -> string): seq<Post> {
    KeepFirst(AnchorCandidates(page.anchors, join), {})
  }

  /** What `parse_posts` returns: the item pass, or the page-wide pass when
      the item pass found nothing. */
  function ParsedPosts(page: Page, join: string -> string): seq<Post> {
    var items := ItemPass(page, join);
    if items != [] then items else FallbackPass(page, join)
  }

  /** Every parsed id is a well-formed post id, and ids are pairwise
      distinct. */
  lemma ParsedPostsWellFormed(page: Page, join: string -> string)
    ensures DistinctIds(ParsedPosts(page, join))
    ensures forall k :: 0 <= k < |ParsedPosts(page, join)| ==> IsPostId(ParsedPosts(page, join)[k].postId)
  {
    var ic := ItemCandidates(SelectItems(page), join);
    var ac := AnchorCandidates(page.anchors, join);
    var r := ParsedPosts(page, join);
    var cands := if ItemPass(page, join) != [] then ic else ac;
    assert r == KeepFirst(cands, {});
    KeepFirstDistinct(cands, {});
    forall k | 0 <= k < |r| ensures IsPostId(r[k].postId) {
      KeepFirstAtFirstOccurrence(cands, {}, k);
      var i := FirstWithId(cands, r[k].postId).value;
      assert cands[i] == Some(r[k]);
    }
  }

  /** The page-wide pass is used only when the item pass found nothing, and
      then every post it yields has all optional fields `None`. */
  lemma FallbackOnlyWhenItemPassEmpty(page: Page, join: string -> string)
    ensures ItemPass(page, join) != [] ==> ParsedPosts(page, join) == ItemPass(page, join)
    ensures ItemPass(page, join) == [] ==> ParsedPosts(page, join) == FallbackPass(page, join)
    ensures ItemPass(page, join) == [] ==>
      forall k :: 0 <= k < |ParsedPosts(page, join)| ==> Minimal(ParsedPosts(page, join)[k])
  {
    if ItemPass(page, join) == [] {
      var ac := AnchorCandidates(page.anchors, join);
      var r := FallbackPass(page, join);
      forall k | 0 <= k < |r| ensures Minimal(r[k]) {
        KeepFirstAtFirstOccurrence(ac, {}, k);
      }
    }
  }

  /** A page with no recognisable item but at least one link carrying a
      post id still yields posts. */
  lemma FallbackFindsLinks(page: Page, join: string -> string, i: nat)
    requires ItemPass(page, join) == []
    requires i < |page.anchors| && HasId(page.anchors[i])
    ensures ParsedPosts(page, join) != []
  {
    var ac := AnchorCandidates(page.anchors, join);
    KeepFirstComplete(ac, {}, i);
  }

  /** The loop invariant of both passes of `parse_posts`: after the first
      `k` candidates, `posts` holds the ones kept so far, `seen` their ids,
      and the rest of the list will add exactly what `KeepFirst` adds. */
  ghost predicate Collected(cands: seq<Option<Post>>, k: nat, seen: set<string>, posts: seq<Post>) {
    && k <= |cands|
    && (forall id :: id in seen <==> id in Ids(posts))
    && DistinctIds(posts)
    && posts + KeepFirst(cands[k..], seen) == KeepFirst(cands, {})
  }

  /** One loop iteration: candidate `c` is appended exactly when it carries
      an id not yet seen. */
  ghost predicate KeepStep(c: Option<Post>, seen: set<string>, posts: seq<Post>, seen': set<string>, posts': seq<Post>) {
    if c.Some? && c.value.postId !in seen then seen' == seen + {c.value.postId} && posts' == posts + [c.value]
    else seen' == seen && posts' == posts
  }

  lemma CollectedStart(cands: seq<Option<Post>>)
    ensures Collected(cands, 0, {}, [])
  {
    assert cands[0..] == cands;
    assert Ids([]) == [];
  }

  lemma CollectedAdvance(cands: seq<Option<Post>>, k: nat, seen: set<string>, posts: seq<Post>,
                         seen': set<string>, posts': seq<Post>)
    requires Collected(cands, k, seen, posts) && k < |cands|
    requires KeepStep(cands[k], seen, posts, seen', posts')
    ensures Collected(cands, k + 1, seen', posts')
  {
    assert cands[k..][1..] == cands[k + 1..];
    var c := cands[k];
    if c.Some? && c.value.postId !in seen {
      assert KeepFirst(cands[k..], seen) == [c.value] + KeepFirst(cands[k + 1..], seen');
      AppendNewId(posts, c.value);
    } else {
      assert KeepFirst(cands[k..], seen) == KeepFirst(cands[k + 1..], seen);
    }
  }

  lemma CollectedEnd(cands: seq<Option<Post>>, seen: set<string>, posts: seq<Post>)
    requires Collected(cands, |cands|, seen, posts)
    ensures posts == KeepFirst(cands, {}) && DistinctIds(posts)
  {
    assert cands[|cands|..] == [];
  }

  lemma AppendNewId(posts: seq<Post>, p: Post)
    requires DistinctIds(posts) && p.postId !in Ids(posts)
    ensures DistinctIds(posts + [p])
    ensures Ids(posts + [p]) == Ids(posts) + [p.postId]
  {
    var r := posts + [p];
    forall i, j | 0 <= i < j < |r| ensures r[i].postId != r[j].postId {
      if j == |posts| {
        assert Ids(posts)[i] == r[i].postId;
      }
    }
  }

  /** The first loop of `parse_posts`: walk the items in document order,
      read each one's post through its time link, keep first occurrences. */
  method CollectItemPosts(items: seq<Item>, join: string -> string) returns (posts: seq<Post>)
    ensures posts == KeepFirst(ItemCandidates(items, join), {})
    ensures DistinctIds(posts)
  {
    ghost var cands := ItemCandidates(items, join);
    posts := [];
    var seen: set<string> := {};
    CollectedStart(cands);
    for k := 0 to |items|
      invariant Collected(cands, k, seen, posts)
    {
      ghost var seen0, posts0 := seen, posts;
      var timeLink := items[k].timeLink;
      if timeLink.Some? && ExtractPostId(timeLink.value.href).None? {
        timeLink := None;
      }
      if timeLink.None? {
        timeLink := FirstLinkWithActivityId(items[k].anchors);
      }
      assert timeLink == ChooseTimeLink(items[k]);
      if timeLink.Some? {
        // the chosen link always carries an id, so the source's `not post_id` test never holds
        var postId := ExtractPostId(timeLink.value.href).value;
        if postId !in seen {
          seen := seen + {postId};
          posts := posts + [ItemPost(items[k], timeLink.value, postId, join)];
        }
      }
      CollectedAdvance(cands, k, seen0, posts0, seen, posts);
    }
    CollectedEnd(cands, seen, posts);
  }

  /** The second loop of `parse_posts`: every link of the page whose href
      carries a post id, first occurrences only, as minimal posts. */
  method CollectLinkPosts(anchors: seq<Anchor>, join: string -> string) returns (posts: seq<Post>)
    ensures posts == KeepFirst(AnchorCandidates(anchors, join), {})
    ensures DistinctIds(posts)
  {
    ghost var cands := AnchorCandidates(anchors, join);
    posts := [];
    var seen: set<string> := {};
    CollectedStart(cands);
    for k := 0 to |anchors|
      invariant Collected(cands, k, seen, posts)
    {
      ghost var seen0, posts0 := seen, posts;
      var href := anchors[k].href;
      var postId := ExtractPostId(href);
      if postId.Some? && postId.value !in seen {
        seen := seen + {postId.value};
        posts := posts + [Post(postId.value, join(href), None, None, None, None, None, None)];
      }
      CollectedAdvance(cands, k, seen0, posts0, seen, posts);
    }
    CollectedEnd(cands, seen, posts);
  }

  /** `parse_posts`: the item pass over the selected items, then, only if it
      produced nothing, the page-wide pass over every link. The source
      shares one `seen_ids` set between the passes; it is still empty when
      the second pass starts, since every id added to it was also added to
      the (then empty) result. */
  method ParsePosts(page: Page, join: string -> string) returns (posts: seq<Post>)
    ensures posts == ParsedPosts(page, join)
    ensures DistinctIds(posts)
  {
    var items := if |page.primaryItems| > 0 then page.primaryItems else page.secondaryItems;
    posts := CollectItemPosts(items, join);
    if posts != [] {
      return;
    }
    posts := CollectLinkPosts(page.anchors, join);
  }
}
