/** `extractPostsFromPage` of services/redditMonitor.js: choose the first
    selector strategy that yields elements, then turn each of the first 25
    elements into a post when it has a usable title and link. The page itself
    (the DOM and the CSS selector queries) is abstract: each strategy's
    element list and each element's query results are given. */
module Extraction {
  import opened Wrappers
  import opened Text
  import opened Posts

  /** A link element: its resolved `href` and its `textContent`. */
  datatype Link = Link(href: string, text: string)

  /** What the per-element queries find inside one candidate element. */
  datatype Element = Element(
    heading: Option<string>,        // text of the first heading-like descendant
    commentLink: Option<Link>,      // the first link whose href contains "/comments/"
    subredditText: Option<string>,  // text of the first link whose href contains "/r/"
    authorText: Option<string>,     // text of the first author-like descendant
    scoreText: Option<string>)      // text of the first score-like descendant

  /** A rendered page, as the element lists its selector strategies yield, in
      the order the extractor tries them (eight in the source). */
  datatype Page = Page(strategies: seq<seq<Element>>)

  /** Only elements with an index below this are examined. */
  const MaxExamined: nat := 25
  /** A raw title must be shorter than this. */
  const MaxTitleLength: nat := 500

  /** The first strategy whose element list is non-empty; later strategies
      are fallbacks and are never merged in. */
  function SelectStrategy(strategies: seq<seq<Element>>): (r: seq<Element>)
    ensures r == [] <==> forall k :: 0 <= k < |strategies| ==> strategies[k] == []
    ensures r != [] ==> exists k :: 0 <= k < |strategies| && strategies[k] == r &&
                          forall j :: 0 <= j < k ==> strategies[j] == []
  {
    if strategies == [] then []
    else if strategies[0] != [] then strategies[0]
    else
      var r := SelectStrategy(strategies[1..]);
      assert forall k :: 1 <= k < |strategies| ==> strategies[k] == strategies[1..][k - 1];
      if r != [] then
        var k :| 0 <= k < |strategies| - 1 && strategies[1..][k] == r &&
                 forall j :: 0 <= j < k ==> strategies[1..][j] == [];
        assert strategies[k + 1] == r;
        r
      else
        r
  }

  /* ---------------------------------------------------------------------- */
  /* Per-element fields                                                      */

  /** The title: the heading's trimmed text when there is a heading, else the
      trimmed text of the comments link, else empty. */
  function RawTitle(e: Element): string {
    match e.heading
    case Some(h) => Trim(h)
    case None =>
      match e.commentLink
      case Some(l) => Trim(l.text)
      case None => ""
  }

  function Url(e: Element): string {
    match e.commentLink
    case Some(l) => l.href
    case None => ""
  }

  /** Subreddit text with its first "r/" removed, or "unknown". */
  function Subreddit(e: Element): string {
    match e.subredditText
    case Some(t) => Trim(ReplaceFirst(t, "r/", ""))
    case None => "unknown"
  }

  /** Author text with its first "u/" removed, or "unknown". */
  function Author(e: Element): string {
    match e.authorText
    case Some(t) => Trim(ReplaceFirst(t, "u/", ""))
    case None => "unknown"
  }

  function Score(e: Element): string {
    match e.scoreText
    case Some(t) => Trim(t)
    case None => "0"
  }

  /** Number of consecutive digits of `s` from index `p`. */
  function DigitSpan(s: string, p: nat): (n: nat)
    requires p <= |s|
    decreases |s| - p
    ensures p + n <= |s|
    ensures forall k :: p <= k < p + n ==> IsDigit(s[k])
    ensures p + n < |s| ==> !IsDigit(s[p + n])
  {
    if p == |s| || !IsDigit(s[p]) then 0 else 1 + DigitSpan(s, p + 1)
  }

  /** The regular expression `(\d+)\s*comment` matches at index `p`. The digit
      run must be maximal (a shorter one is followed by a digit, which neither
      `\s` nor "c" accepts), and so must the whitespace run. */
  predicate CommentMatchAt(s: string, p: nat) {
    p < |s| && IsDigit(s[p]) &&
    var e := p + DigitSpan(s, p);
    OccursAt(s, "comment", e + WsSpan(s[e..]))
  }

  /** The leftmost index from `from` on where the pattern matches, or -1. */
  function FirstCommentMatch(s: string, from: nat): (r: int)
    requires from <= |s|
    decreases |s| - from
    ensures r == -1 ==> forall q :: from <= q < |s| ==> !CommentMatchAt(s, q)
    ensures r != -1 ==> from <= r < |s| && CommentMatchAt(s, r) &&
                        forall q :: from <= q < r ==> !CommentMatchAt(s, q)
  {
    if from == |s| then -1
    else if CommentMatchAt(s, from) then from
    else
      var r := FirstCommentMatch(s, from + 1);
      NoMatchExtends(s, from, if r == -1 then |s| else r);
      r
  }

  /** A non-match at `from` extends a match-free range that starts just after it. */
  lemma NoMatchExtends(s: string, from: nat, to: nat)
    requires from < to <= |s| && !CommentMatchAt(s, from)
    requires forall q :: from + 1 <= q < to ==> !CommentMatchAt(s, q)
    ensures forall q :: from <= q < to ==> !CommentMatchAt(s, q)
  {
    forall q | from <= q < to ensures !CommentMatchAt(s, q) {
      if q != from {
        assert from + 1 <= q;
      }
    }
  }

  /** `numComments`: the digits captured by the first match of
      `(\d+)\s*comment` in the comments link text, else "0". */
  function CommentCount(text: string): (r: string)
    ensures r != [] && forall k :: 0 <= k < |r| ==> IsDigit(r[k])
    ensures FirstCommentMatch(text, 0) == -1 ==> r == "0"
  {
    var p := FirstCommentMatch(text, 0);
    if p == -1 then "0" else text[p..p + DigitSpan(text, p)]
  }

  /** When the leftmost match of `(\d+)\s*comment` starts right after `pre`,
      the count is the digit run it captures. */
  lemma CommentCountIsCapture(pre: string, digits: string, ws: string, rest: string)
    requires digits != [] && AllDigits(digits) && AllWs(ws)
    requires forall q :: 0 <= q < |pre| ==> !CommentMatchAt(pre + digits + ws + "comment" + rest, q)
    ensures CommentCount(pre + digits + ws + "comment" + rest) == digits
  {
    var s := pre + digits + ws + "comment" + rest;
    var p, e := |pre|, |pre| + |digits|;
    assert s[p..e] == digits;
    assert s[e..e + |ws|] == ws;
    assert s[e + |ws|..e + |ws| + 7] == "comment";
    MatchFromRuns(s, p, |digits|, |ws|);
    FirstMatchIs(s, p);
  }

  /** Digits on `[p, p+m)`, whitespace on the next `w` characters, then
      "comment": the pattern matches at `p` and captures those digits. */
  lemma MatchFromRuns(s: string, p: nat, m: nat, w: nat)
    requires 0 < m && p + m + w + 7 <= |s|
    requires AllDigits(s[p..p + m]) && AllWs(s[p + m..p + m + w])
    requires s[p + m + w..p + m + w + 7] == "comment"
    ensures CommentMatchAt(s, p) && DigitSpan(s, p) == m
  {
    var e := p + m;
    assert s[e + w] == s[e + w..e + w + 7][0] == 'c';
    if w > 0 {
      assert s[e] == s[e..e + w][0];
    }
    DigitRun(s, p, m);
    WsRun(s, e, w);
    assert IsDigit(s[p]) by {
      assert s[p] == s[p..p + m][0];
    }
    assert OccursAt(s, "comment", e + WsSpan(s[e..]));
    assert p + DigitSpan(s, p) == e;
  }

  /** A match with none before it is the leftmost one. */
  lemma FirstMatchIs(s: string, p: nat)
    requires CommentMatchAt(s, p)
    requires forall q :: 0 <= q < p ==> !CommentMatchAt(s, q)
    ensures FirstCommentMatch(s, 0) == p
  {
  }

  /** A digit run of length `m` at `p`, ended by a non-digit, is what
      `DigitSpan` measures. */
  lemma {:induction false} DigitRun(s: string, p: nat, m: nat)
    requires p + m < |s| && !IsDigit(s[p + m])
    requires AllDigits(s[p..p + m])
    ensures DigitSpan(s, p) == m
    decreases m
  {
    if m > 0 {
      assert s[p..p + m][0] == s[p];
      assert s[p + 1..p + m] == s[p..p + m][1..];
      DigitRun(s, p + 1, m - 1);
    }
  }

  /** A whitespace run of length `w` at `e`, ended by another character, is
      what `WsSpan` measures on the rest of `s`. */
  lemma {:induction false} WsRun(s: string, e: nat, w: nat)
    requires e + w < |s| && !IsWs(s[e + w])
    requires AllWs(s[e..e + w])
    ensures WsSpan(s[e..]) == w
    decreases w
  {
    if w > 0 {
      assert s[e..][1..] == s[e + 1..];
      assert s[e..e + w][0] == s[e];
      assert s[e + 1..e + w] == s[e..e + w][1..];
      WsRun(s, e + 1, w - 1);
    }
  }

  function NumComments(e: Element): string {
    match e.commentLink
    case Some(l) => CommentCount(l.text)
    case None => "0"
  }

  /** The text between the first and the second "/comments/" of `url`, or to
      the end when there is no second one: `url.split('/comments/')[1]`. */
  function AfterComments(url: string): Option<string> {
    var i := FirstOccurrence(url, "/comments/");
    if i == -1 then None
    else
      var rest := url[i + 10..];
      var j := FirstOccurrence(rest, "/comments/");
      Some(if j == -1 then rest else rest[..j])
  }

  /** `url.split('/comments/')[1]?.split('/')[0] || 'post_' + index`. */
  function PostId(url: string, index: nat): (id: string)
    ensures id != [] && '/' !in id
    ensures !Contains(url, "/comments/") ==> id == "post_" + NatToString(index)
  {
    var fallback := "post_" + NatToString(index);
    assert '/' !in fallback by {
      assert forall k :: 5 <= k < |fallback| ==> IsDigit(fallback[k]);
    }
    match AfterComments(url)
    case None => fallback
    case Some(piece) =>
      var id := SplitOn(piece, '/')[0];
      if id == [] then fallback else id
  }

  /** For a URL whose first "/comments/" is followed by a non-empty segment
      without '/', and then by '/' or the end, the identifier is that segment,
      whatever follows it. */
  lemma PostIdIsCommentsSegment(prefix: string, seg: string, tail: string, index: nat)
    requires forall j :: 0 <= j < |prefix| ==> !OccursAt(prefix + "/comments/" + seg + tail, "/comments/", j)
    requires seg != [] && '/' !in seg
    requires tail == [] || tail[0] == '/'
    ensures PostId(prefix + "/comments/" + seg + tail, index) == seg
  {
    var url := prefix + "/comments/" + seg + tail;
    assert url == prefix + "/comments/" + (seg + tail);
    CommentsAt(prefix, seg + tail);
    var rest := seg + tail;
    var j := FirstOccurrence(rest, "/comments/");
    if j == -1 {
      FirstSegment(rest, seg);
    } else {
      assert rest[j] == '/' by {
        assert OccursAt(rest, "/comments/", j);
        assert rest[j..j + 10][0] == rest[j];
      }
      assert j >= |seg|;
      FirstSegment(rest[..j], seg);
    }
  }

  /** When no "/comments/" starts inside `prefix`, the first one starts right
      after it. */
  lemma CommentsAt(prefix: string, rest: string)
    requires forall j :: 0 <= j < |prefix| ==> !OccursAt(prefix + "/comments/" + rest, "/comments/", j)
    ensures FirstOccurrence(prefix + "/comments/" + rest, "/comments/") == |prefix|
    ensures (prefix + "/comments/" + rest)[|prefix| + 10..] == rest
  {
    var url := prefix + "/comments/" + rest;
    assert OccursAt(url, "/comments/", |prefix|) by {
      assert url[|prefix|..|prefix| + 10] == "/comments/";
    }
  }

  /** The first '/'-separated piece of `seg`, or of `seg` followed by '/' and
      anything, is `seg`. */
  lemma FirstSegment(piece: string, seg: string)
    requires '/' !in seg
    requires piece == seg || (|piece| > |seg| && piece[..|seg|] == seg && piece[|seg|] == '/')
    ensures SplitOn(piece, '/')[0] == seg
  {
    if piece == seg {
      SplitOnNoSep(seg, '/');
    } else {
      var rest := piece[|seg| + 1..];
      SplitAround(piece, |seg|);
      SplitOnCons(seg, rest, '/');
    }
  }

  /** One element as a post: accepted only with a non-empty title shorter
      than 500 characters and a non-empty URL; the title then has its
      whitespace runs collapsed, and the timestamp is the current time. */
  function ElementToPost(e: Element, index: nat, now: int): Option<Post> {
    var title := RawTitle(e);
    var url := Url(e);
    if title != [] && url != [] && |title| < MaxTitleLength then
      Some(Post(
        id := PostId(url, index),
        title := Trim(Collapse(title)),
        url := url,
        subreddit := Subreddit(e),
        author := Author(e),
        score := Score(e),
        numComments := NumComments(e),
        created := now))
    else
      None
  }

  /** The posts made from `elements`, in order; element `k` has index `k`. */
  function PostsOf(elements: seq<Element>, now: int): seq<Post> {
    if elements == [] then []
    else
      var k := |elements| - 1;
      PostsOf(elements[..k], now) + Accepted(ElementToPost(elements[k], k, now))
  }

  function Accepted(post: Option<Post>): seq<Post> {
    match post
    case Some(p) => [p]
    case None => []
  }

  /** One more element adds its post, if any, at the end. */
  lemma PostsOfSnoc(elements: seq<Element>, i: nat, now: int)
    requires i < |elements|
    ensures PostsOf(elements[..i + 1], now) ==
            PostsOf(elements[..i], now) + Accepted(ElementToPost(elements[i], i, now))
  {
    assert elements[..i + 1][..i] == elements[..i];
  }

  lemma PushAccepted(results: seq<Post>, post: Option<Post>)
    ensures results + Accepted(post) == if post.Some? then results + [post.value] else results
  {
    if post.None? {
      assert results + [] == results;
    }
  }

  function Min(a: nat, b: nat): nat { if a < b then a else b }

  /** What `extractPostsFromPage` returns for a page. */
  function ExtractPosts(page: Page, now: int): seq<Post> {
    var elements := SelectStrategy(page.strategies);
    PostsOf(elements[..Min(|elements|, MaxExamined)], now)
  }

  /** The extractor's `forEach` over the selected elements, skipping every
      index from 25 on and pushing each accepted post. */
  method ExtractPostsFromPage(page: Page, now: int) returns (results: seq<Post>)
    ensures results == ExtractPosts(page, now)
  {
    var postElements := SelectStrategy(page.strategies);
    var cap := Min(|postElements|, MaxExamined);
    results := [];
    var index := 0;
    while index < |postElements|
      invariant 0 <= index <= |postElements|
      invariant results == PostsOf(postElements[..Min(index, cap)], now)
    {
      if index < MaxExamined {
        PostsOfSnoc(postElements, index, now);
        var post := ElementToPost(postElements[index], index, now);
        PushAccepted(results, post);
        if post.Some? {
          results := results + [post.value];
        }
      }
      index := index + 1;
    }
  }

  /* ---------------------------------------------------------------------- */
  /* What every extracted post satisfies                                     */

  /** A post as the extractor builds it: a non-empty, single-spaced title
      shorter than 500 characters with no whitespace at either end, a
      non-empty URL, a non-empty identifier without '/', a numeric comment
      count, and the current time as its timestamp. */
  predicate WellFormed(p: Post, now: int) {
    p.title != [] && |p.title| < MaxTitleLength &&
    !IsWs(p.title[0]) && !IsWs(p.title[|p.title| - 1]) && SingleSpaced(p.title) &&
    p.url != [] && p.id != [] && '/' !in p.id &&
    p.numComments != [] && (forall k :: 0 <= k < |p.numComments| ==> IsDigit(p.numComments[k])) &&
    p.created == now
  }

  /** An element yields a post exactly when its title is non-empty and
      shorter than 500 characters and its link is non-empty; the post is then
      well formed and keeps the element's link. */
  lemma ElementToPostAccepts(e: Element, index: nat, now: int)
    ensures ElementToPost(e, index, now).Some? <==>
              RawTitle(e) != [] && Url(e) != [] && |RawTitle(e)| < MaxTitleLength
    ensures ElementToPost(e, index, now).Some? ==>
              WellFormed(ElementToPost(e, index, now).value, now) &&
              ElementToPost(e, index, now).value.url == Url(e)
  {
    var title := RawTitle(e);
    if title != [] && Url(e) != [] && |title| < MaxTitleLength {
      CleanTitle(title);
    }
  }

  /** A trimmed, non-empty raw title collapses to a non-empty, single-spaced
      title no longer than itself, with no whitespace at either end. */
  lemma CleanTitle(title: string)
    requires title != [] && !IsWs(title[0])
    ensures var t := Trim(Collapse(title));
            t != [] && |t| <= |title| && !IsWs(t[0]) && !IsWs(t[|t| - 1]) && SingleSpaced(t)
  {
    TrimCollapse(title);
    assert !AllWs(title);
  }

  /** Every post made from a list of elements is well formed, and there are
      at most as many posts as elements. */
  lemma {:induction false} PostsOfWellFormed(elements: seq<Element>, now: int)
    ensures |PostsOf(elements, now)| <= |elements|
    ensures forall p :: p in PostsOf(elements, now) ==> WellFormed(p, now)
    decreases |elements|
  {
    if elements != [] {
      var k := |elements| - 1;
      PostsOfWellFormed(elements[..k], now);
      ElementToPostAccepts(elements[k], k, now);
    }
  }

  /** The extractor returns at most 25 posts, all well formed; nothing when
      no strategy finds an element; and only the first productive strategy's
      elements are used. */
  lemma ExtractedPostsWellFormed(page: Page, now: int)
    ensures |ExtractPosts(page, now)| <= MaxExamined
    ensures forall p :: p in ExtractPosts(page, now) ==> WellFormed(p, now)
    ensures (forall k :: 0 <= k < |page.strategies| ==> page.strategies[k] == []) ==>
              ExtractPosts(page, now) == []
    ensures page.strategies != [] && page.strategies[0] != [] ==>
              ExtractPosts(page, now) == ExtractPosts(Page(page.strategies[..1]), now)
  {
    var elements := SelectStrategy(page.strategies);
    PostsOfWellFormed(elements[..Min(|elements|, MaxExamined)], now);
  }

  /** Elements past the 25th are never looked at. */
  lemma ElementsPastCapIgnored(elements: seq<Element>, more: seq<Element>, now: int)
    requires |elements| == MaxExamined
    ensures ExtractPosts(Page([elements + more]), now) == ExtractPosts(Page([elements]), now)
  {
    assert SelectStrategy([elements + more]) == elements + more;
    assert SelectStrategy([elements]) == elements;
    assert (elements + more)[..MaxExamined] == elements;
    assert elements[..MaxExamined] == elements;
  }
}
