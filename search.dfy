/** The search cascade `searchReddit` of services/redditMonitor.js: try the
    main search page, then old.reddit, then five subreddit searches in order,
    then the JSON API, and return the keyword-filtered posts of the first
    approach whose raw result is non-empty. The browser is abstract: what each
    page load yields (a thrown error or a rendered page) and what the JSON
    request yields are inputs. */
module Search {
  import opened Wrappers
  import opened Seqs
  import opened Text
  import opened Posts
  import opened KeywordMatch
  import opened Extraction

  /** The subreddits approach 3 searches, in order. */
  const PopularSubreddits: seq<string> := ["programming", "webdev", "freelance", "forhire", "jobs"]

  /** The pages the cascade may load, and the JSON request. */
  datatype Target = MainSearch | OldRedditSearch | SubredditSearch(subreddit: string) | JsonApi

  /** Loading a page and running the extractor on it either throws or
      yields the extracted posts (see `Extraction.ExtractPosts`). */
  datatype Load = Thrown | Loaded(posts: seq<Post>)

  /** One `data.children[k].data` object of the JSON answer. A missing
      `score` or `num_comments` makes its `toString()` throw. */
  datatype JsonChild = JsonChild(
    id: string, title: string, permalink: string, subreddit: string, author: string,
    score: Option<int>, numComments: Option<int>, createdUtc: int)

  /** The JSON request: an error or non-OK answer (`null`), an answer without
      `data.children`, or the list of children (possibly empty). */
  datatype JsonResponse = JsonNull | JsonNoChildren | JsonChildren(children: seq<JsonChild>)

  /** What the browser does for one search: whether it launches, what each
      page load yields, and the JSON answer. */
  datatype Web = Web(launches: bool, load: Target -> Load, api: JsonResponse)

  /** The full order in which the cascade tries its targets. */
  function Cascade(): seq<Target> {
    [MainSearch, OldRedditSearch] + Subreddits(PopularSubreddits) + [JsonApi]
  }

  function Subreddits(names: seq<string>): (r: seq<Target>)
    ensures |r| == |names|
    ensures forall k :: 0 <= k < |names| ==> r[k] == SubredditSearch(names[k])
  {
    if names == [] then [] else [SubredditSearch(names[0])] + Subreddits(names[1..])
  }

  /** The raw posts a page load yields: none when it throws. */
  function RawPosts(l: Load): seq<Post> {
    match l
    case Thrown => []
    case Loaded(posts) => posts
  }

  /** Every page load's posts are what the extractor could produce at time
      `now`: at most 25 well-formed posts. */
  ghost predicate Rendered(web: Web, now: int) {
    forall t :: web.load(t).Loaded? ==>
      (|web.load(t).posts| <= MaxExamined && forall p :: p in web.load(t).posts ==> WellFormed(p, now))
  }

  /** The JSON mapping of one child, or None when a count is missing. */
  function ChildToPost(c: JsonChild): Option<Post> {
    if c.score.None? || c.numComments.None? then None
    else
      Some(Post(
        id := c.id,
        title := c.title,
        url := "https://www.reddit.com" + c.permalink,
        subreddit := c.subreddit,
        author := c.author,
        score := IntToString(c.score.value),
        numComments := IntToString(c.numComments.value),
        created := c.createdUtc))
  }

  /** `children.map(...)`: None when any child's mapping throws. */
  function MapChildren(children: seq<JsonChild>): (r: Option<seq<Post>>)
    ensures r.Some? ==> |r.value| == |children|
    ensures r.Some? <==> forall k :: 0 <= k < |children| ==> ChildToPost(children[k]).Some?
    ensures r.Some? ==> forall k :: 0 <= k < |children| ==> r.value[k] == ChildToPost(children[k]).value
  {
    if children == [] then Some([])
    else
      match (ChildToPost(children[0]), MapChildren(children[1..]))
      case (Some(p), Some(ps)) => Some([p] + ps)
      case (_, _) =>
        assert forall k :: 1 <= k < |children| ==> children[1..][k - 1] == children[k];
        None
  }

  /** The result of a search and the targets it tried, in order. */
  datatype Outcome = Outcome(posts: seq<Post>, attempts: seq<Target>)

  /** Approach 3 from the subreddit `names[0]` on: the raw posts of the first
      subreddit page with any, or None; a thrown load abandons the rest. */
  function SubredditPhase(names: seq<string>, phrase: string, web: Web, now: int): (r: (Option<seq<Post>>, seq<Target>))
    ensures |r.1| <= |names|
    ensures r.1 == Subreddits(names[..|r.1|])
  {
    if names == [] then (None, [])
    else
      var t := SubredditSearch(names[0]);
      var raw := RawPosts(web.load(t));
      if raw != [] then (Some(raw), [t])
      else if web.load(t).Thrown? then (None, [t])
      else
        var rest := SubredditPhase(names[1..], phrase, web, now);
        assert names[..|rest.1| + 1] == [names[0]] + names[1..][..|rest.1|];
        (rest.0, [t] + rest.1)
  }

  /** The JSON approach: the mapped children whenever `data.children`
      exists, else nothing. */
  function JsonPhase(api: JsonResponse): Option<seq<Post>> {
    match api
    case JsonChildren(children) => MapChildren(children)
    case _ => None
  }

  /** Reference definition of `searchReddit(phrase)`. */
  function SearchResult(phrase: string, web: Web, now: int): Outcome {
    if !web.launches then Outcome([], [])
    else
      Decide(phrase, RawPosts(web.load(MainSearch)), RawPosts(web.load(OldRedditSearch)),
             SubredditPhase(PopularSubreddits, phrase, web, now), JsonPhase(web.api))
  }

  /** The cascade once the browser runs, given the raw results of the main
      page, old.reddit, approach 3 (with the subreddits it tried) and the
      JSON request. */
  function Decide(phrase: string, main: seq<Post>, oldPosts: seq<Post>,
                  sub: (Option<seq<Post>>, seq<Target>), json: Option<seq<Post>>): Outcome {
    if main != [] then Outcome(FilterByKeyword(main, phrase), [MainSearch])
    else if oldPosts != [] then Outcome(FilterByKeyword(oldPosts, phrase), [MainSearch, OldRedditSearch])
    else
      var before := [MainSearch, OldRedditSearch] + sub.1;
      if sub.0.Some? then Outcome(FilterByKeyword(sub.0.value, phrase), before)
      else if json.Some? then Outcome(FilterByKeyword(json.value, phrase), before + [JsonApi])
      else Outcome([], before + [JsonApi])
  }

  /** The `for` loop of approach 3 over `names`: the raw posts of the first
      subreddit page with any, and the subreddit searches tried. */
  method SearchSubreddits(names: seq<string>, phrase: string, web: Web, now: int)
    returns (hit: Option<seq<Post>>, tried: seq<Target>)
    ensures (hit, tried) == SubredditPhase(names, phrase, web, now)
  {
    var i := 0;
    tried := [];
    while i < |names|
      invariant 0 <= i <= |names|
      invariant SubredditPhase(names, phrase, web, now).0 == SubredditPhase(names[i..], phrase, web, now).0
      invariant SubredditPhase(names, phrase, web, now).1 == tried + SubredditPhase(names[i..], phrase, web, now).1
    {
      var target := SubredditSearch(names[i]);
      var load := web.load(target);
      var posts := RawPosts(load);
      SubredditPhaseStep(names[i..], phrase, web, now);
      assert names[i..][1..] == names[i + 1..];
      tried := tried + [target];
      if posts != [] {
        return Some(posts), tried;
      }
      if load.Thrown? {
        return None, tried;
      }
      i := i + 1;
    }
    assert names[i..] == [];
    assert SubredditPhase(names[i..], phrase, web, now) == (None, []);
    assert tried + [] == tried;
    return None, tried;
  }

  /** One subreddit of approach 3. */
  lemma SubredditPhaseStep(names: seq<string>, phrase: string, web: Web, now: int)
    requires names != []
    ensures var t := SubredditSearch(names[0]);
            var raw := RawPosts(web.load(t));
            var rest := SubredditPhase(names[1..], phrase, web, now);
            SubredditPhase(names, phrase, web, now) ==
              if raw != [] then (Some(raw), [t])
              else if web.load(t).Thrown? then (None, [t])
              else (rest.0, [t] + rest.1)
  {
  }

  /** `searchReddit`, approach by approach, with the subreddit loop. */
  method SearchReddit(phrase: string, web: Web, now: int) returns (posts: seq<Post>, attempts: seq<Target>)
    ensures Outcome(posts, attempts) == SearchResult(phrase, web, now)
  {
    if !web.launches {
      return [], [];
    }
    // Approach 1: the main search page.
    var main := RawPosts(web.load(MainSearch));
    if main != [] {
      posts := FilterPostsByKeyword(main, phrase);
      return posts, [MainSearch];
    }
    // Approach 2: old.reddit.
    var oldPosts := RawPosts(web.load(OldRedditSearch));
    if oldPosts != [] {
      posts := FilterPostsByKeyword(oldPosts, phrase);
      return posts, [MainSearch, OldRedditSearch];
    }
    // Approach 3: the popular subreddits, abandoned at the first thrown load.
    var hit, tried := SearchSubreddits(PopularSubreddits, phrase, web, now);
    attempts := [MainSearch, OldRedditSearch] + tried;
    if hit.Some? {
      posts := FilterPostsByKeyword(hit.value, phrase);
      return;
    }
    attempts := attempts + [JsonApi];
    // Approach 4: the JSON API.
    var mapped := JsonPhase(web.api);
    if mapped.Some? {
      posts := FilterPostsByKeyword(mapped.value, phrase);
      return;
    }
    posts := [];
  }

  /* ---------------------------------------------------------------------- */
  /* Properties of the cascade                                               */

  /** Page loads whose posts come from the extractor satisfy `Rendered`. */
  lemma ExtractedLoadsRendered(web: Web, now: int)
    requires forall t :: web.load(t).Loaded? ==> exists page :: web.load(t).posts == ExtractPosts(page, now)
    ensures Rendered(web, now)
  {
    forall t | web.load(t).Loaded?
      ensures |web.load(t).posts| <= MaxExamined && forall p :: p in web.load(t).posts ==> WellFormed(p, now)
    {
      var page :| web.load(t).posts == ExtractPosts(page, now);
      ExtractedPostsWellFormed(page, now);
    }
  }

  /** A subreddit hit is the raw result of one of the subreddit pages. */
  lemma {:induction false} SubredditHitIsPage(names: seq<string>, phrase: string, web: Web, now: int)
    ensures var r := SubredditPhase(names, phrase, web, now);
            r.0.Some? ==> r.0.value != [] && exists k :: 0 <= k < |names| && r.0.value == RawPosts(web.load(SubredditSearch(names[k])))
    decreases |names|
  {
    if names != [] {
      var t := SubredditSearch(names[0]);
      if RawPosts(web.load(t)) == [] && !web.load(t).Thrown? {
        SubredditHitIsPage(names[1..], phrase, web, now);
        var r := SubredditPhase(names[1..], phrase, web, now);
        if r.0.Some? {
          var k :| 0 <= k < |names[1..]| && r.0.value == RawPosts(web.load(SubredditSearch(names[1..][k])));
          assert names[1..][k] == names[k + 1];
        }
      }
    }
  }

  /** The first approach with a non-empty raw result decides: the main page
      wins outright, and its filtered posts are returned even when filtering
      leaves none. */
  lemma FirstHitWins(phrase: string, web: Web, now: int)
    requires web.launches && RawPosts(web.load(MainSearch)) != []
    ensures SearchResult(phrase, web, now).attempts == [MainSearch]
    ensures SearchResult(phrase, web, now).posts == FilterByKeyword(RawPosts(web.load(MainSearch)), phrase)
    ensures (forall p :: p in RawPosts(web.load(MainSearch)) ==> !ContainsKeyword(p.title, phrase)) && phrase != [] ==>
              SearchResult(phrase, web, now).posts == []
  {
    var raw := RawPosts(web.load(MainSearch));
    if phrase != [] && forall p :: p in raw ==> !ContainsKeyword(p.title, phrase) {
      var r := FilterByKeyword(raw, phrase);
      if r != [] {
        FilterKeepsExactlyMatches(raw, phrase, r[0]);
      }
    }
  }

  /** When the main page fails or shows nothing, old.reddit is tried next. */
  lemma MainFailureFallsBack(phrase: string, web: Web, now: int)
    requires web.launches && RawPosts(web.load(MainSearch)) == []
    ensures |SearchResult(phrase, web, now).attempts| >= 2
    ensures SearchResult(phrase, web, now).attempts[..2] == [MainSearch, OldRedditSearch]
  {
    var oldPosts := RawPosts(web.load(OldRedditSearch));
    if oldPosts == [] {
      var (hit, tried) := SubredditPhase(PopularSubreddits, phrase, web, now);
      var o := SearchResult(phrase, web, now);
      assert o.attempts[..2] == ([MainSearch, OldRedditSearch] + tried + o.attempts[2 + |tried|..])[..2];
    }
  }

  /** Subreddit pages that load but show nothing move the search on: after
      `k` such pages, approach 3 continues from the k-th name, having tried
      the first `k`. */
  lemma {:induction false} PhaseAfterEmpty(names: seq<string>, k: nat, phrase: string, web: Web, now: int)
    requires k <= |names|
    requires forall j :: 0 <= j < k ==> web.load(SubredditSearch(names[j])).Loaded? &&
                                        RawPosts(web.load(SubredditSearch(names[j]))) == []
    ensures var rest := SubredditPhase(names[k..], phrase, web, now);
            SubredditPhase(names, phrase, web, now) == (rest.0, Subreddits(names[..k]) + rest.1)
    decreases k
  {
    if k == 0 {
      assert names[k..] == names && names[..k] == [];
      var r := SubredditPhase(names, phrase, web, now);
      assert Subreddits(names[..k]) + r.1 == r.1;
    } else {
      var tail := names[1..];
      assert forall j :: 0 <= j < k - 1 ==> tail[j] == names[j + 1];
      PhaseAfterEmpty(tail, k - 1, phrase, web, now);
      PhaseSkip(names, phrase, web, now);
      TailCut(names, k);
      SubredditsCons(names[0], tail[..k - 1]);
      ShiftPhase(SubredditPhase(names, phrase, web, now), SubredditPhase(tail, phrase, web, now),
                 SubredditPhase(names[k..], phrase, web, now), SubredditSearch(names[0]),
                 Subreddits(tail[..k - 1]), Subreddits(names[..k]));
    }
  }

  lemma ShiftPhase(a: (Option<seq<Post>>, seq<Target>), b: (Option<seq<Post>>, seq<Target>),
                   c: (Option<seq<Post>>, seq<Target>), x: Target, l: seq<Target>, m: seq<Target>)
    requires a == (b.0, [x] + b.1) && b == (c.0, l + c.1) && m == [x] + l
    ensures a == (c.0, m + c.1)
  {
    assert [x] + (l + c.1) == ([x] + l) + c.1;
  }

  /** A subreddit page that loads empty hands approach 3 on to the next name. */
  lemma PhaseSkip(names: seq<string>, phrase: string, web: Web, now: int)
    requires names != []
    requires web.load(SubredditSearch(names[0])).Loaded? && RawPosts(web.load(SubredditSearch(names[0]))) == []
    ensures var rest := SubredditPhase(names[1..], phrase, web, now);
            SubredditPhase(names, phrase, web, now) == (rest.0, [SubredditSearch(names[0])] + rest.1)
  {
  }

  /** ... and the first that throws ends approach 3 there. */
  lemma SubredditThrowStops(names: seq<string>, k: nat, phrase: string, web: Web, now: int)
    requires k < |names|
    requires forall j :: 0 <= j < k ==> web.load(SubredditSearch(names[j])).Loaded? &&
                                        RawPosts(web.load(SubredditSearch(names[j]))) == []
    requires web.load(SubredditSearch(names[k])).Thrown?
    ensures SubredditPhase(names, phrase, web, now) == (None, Subreddits(names[..k + 1]))
  {
    PhaseAfterEmpty(names, k, phrase, web, now);
    PhaseEndsAt(names, k, phrase, web, now);
  }

  /** ... and the first page with posts ends approach 3 with those posts. */
  lemma SubredditHitAt(names: seq<string>, k: nat, phrase: string, web: Web, now: int)
    requires k < |names|
    requires forall j :: 0 <= j < k ==> web.load(SubredditSearch(names[j])).Loaded? &&
                                        RawPosts(web.load(SubredditSearch(names[j]))) == []
    requires RawPosts(web.load(SubredditSearch(names[k]))) != []
    ensures SubredditPhase(names, phrase, web, now) ==
              (Some(RawPosts(web.load(SubredditSearch(names[k])))), Subreddits(names[..k + 1]))
  {
    PhaseAfterEmpty(names, k, phrase, web, now);
    PhaseEndsAt(names, k, phrase, web, now);
  }

  /** The k-th name ends approach 3 when its page throws or shows posts. */
  lemma PhaseEndsAt(names: seq<string>, k: nat, phrase: string, web: Web, now: int)
    requires k < |names|
    ensures var t := SubredditSearch(names[k]);
            var raw := RawPosts(web.load(t));
            var rest := SubredditPhase(names[k..], phrase, web, now);
            (raw != [] ==> rest == (Some(raw), [t])) &&
            (web.load(t).Thrown? ==> rest == (None, [t]))
    ensures names[..k + 1] == names[..k] + [names[k]]
    ensures Subreddits(names[..k + 1]) == Subreddits(names[..k]) + [SubredditSearch(names[k])]
  {
    SubredditPhaseStep(names[k..], phrase, web, now);
    assert names[k..][0] == names[k];
    assert names[..k + 1] == names[..k] + [names[k]];
    SubredditsSnoc(names[..k], names[k]);
  }

  lemma {:induction false} SubredditsSnoc(names: seq<string>, x: string)
    ensures Subreddits(names + [x]) == Subreddits(names) + [SubredditSearch(x)]
    decreases |names|
  {
    if names == [] {
      assert [] + [x] == [x];
    } else {
      SubredditsSnoc(names[1..], x);
      assert names + [x] == [names[0]] + (names[1..] + [x]);
      SubredditsCons(names[0], names[1..] + [x]);
      SubredditsCons(names[0], names[1..]);
      assert names == [names[0]] + names[1..];
    }
  }

  lemma SubredditsCons(x: string, names: seq<string>)
    ensures Subreddits([x] + names) == [SubredditSearch(x)] + Subreddits(names)
  {
    assert ([x] + names)[1..] == names;
  }

  /** Every subreddit search tried before the last one showed no posts; a
      hit is the non-empty raw result of the last one tried, and without a
      hit none of them showed posts. */
  lemma {:induction false} SubredditTriedEmpty(names: seq<string>, phrase: string, web: Web, now: int)
    ensures var r := SubredditPhase(names, phrase, web, now);
            (forall i :: 0 <= i < |r.1| - 1 ==> RawPosts(web.load(r.1[i])) == []) &&
            (r.0.None? ==> forall i :: 0 <= i < |r.1| ==> RawPosts(web.load(r.1[i])) == []) &&
            (r.0.Some? ==> r.1 != [] && r.0.value != [] && r.0.value == RawPosts(web.load(r.1[|r.1| - 1])))
    decreases |names|
  {
    if names != [] {
      var t := SubredditSearch(names[0]);
      if RawPosts(web.load(t)) == [] && !web.load(t).Thrown? {
        SubredditTriedEmpty(names[1..], phrase, web, now);
        var rest := SubredditPhase(names[1..], phrase, web, now);
        var tried := [t] + rest.1;
        assert SubredditPhase(names, phrase, web, now) == (rest.0, tried);
        assert forall i :: 1 <= i < |tried| ==> tried[i] == rest.1[i - 1];
      }
    }
  }

  /** A throw inside approach 3 abandons the remaining subreddits: after the
      k-th subreddit throws, the search goes straight to the JSON API. */
  lemma SubredditThrowAbandonsRest(phrase: string, web: Web, now: int, k: nat)
    requires web.launches
    requires RawPosts(web.load(MainSearch)) == [] && RawPosts(web.load(OldRedditSearch)) == []
    requires k < |PopularSubreddits|
    requires forall j :: 0 <= j < k ==> web.load(SubredditSearch(PopularSubreddits[j])).Loaded? &&
                                        RawPosts(web.load(SubredditSearch(PopularSubreddits[j]))) == []
    requires web.load(SubredditSearch(PopularSubreddits[k])).Thrown?
    ensures SearchResult(phrase, web, now).attempts ==
              [MainSearch, OldRedditSearch] + Subreddits(PopularSubreddits[..k + 1]) + [JsonApi]
    ensures forall j :: k < j < |PopularSubreddits| ==>
              SubredditSearch(PopularSubreddits[j]) !in SearchResult(phrase, web, now).attempts
  {
    SubredditThrowStops(PopularSubreddits, k, phrase, web, now);
    var subs := Subreddits(PopularSubreddits[..k + 1]);
    var attempts := SearchResult(phrase, web, now).attempts;
    assert attempts == [MainSearch, OldRedditSearch] + subs + [JsonApi];
    PopularDistinct();
    forall j | k < j < |PopularSubreddits| ensures SubredditSearch(PopularSubreddits[j]) !in attempts {
      LaterNotTried(PopularSubreddits, k + 1, j);
    }
  }

  /** The five subreddit names differ (they even differ in length). */
  lemma PopularDistinct()
    ensures forall i, j :: 0 <= i < j < |PopularSubreddits| ==> PopularSubreddits[i] != PopularSubreddits[j]
  {
    var ps := PopularSubreddits;
    assert |ps[0]| == 11 && |ps[1]| == 6 && |ps[2]| == 9 && |ps[3]| == 7 && |ps[4]| == 4;
  }

  /** With distinct names, a subreddit past the first `n` is not among their searches. */
  lemma LaterNotTried(names: seq<string>, n: nat, j: nat)
    requires n <= j < |names|
    requires forall i, i' :: 0 <= i < i' < |names| ==> names[i] != names[i']
    ensures SubredditSearch(names[j]) !in Subreddits(names[..n])
  {
    var subs := Subreddits(names[..n]);
    forall i | 0 <= i < |subs| ensures subs[i] != SubredditSearch(names[j]) {
      assert subs[i] == SubredditSearch(names[i]);
    }
  }

  /** The targets are tried in cascade order: what was tried is a prefix of
      main, old.reddit, the five subreddits and the JSON API, except that a
      throw in approach 3 jumps straight to the JSON API. */
  lemma AttemptsFollowCascade(phrase: string, web: Web, now: int)
    ensures var a := SearchResult(phrase, web, now).attempts;
            a == Cascade()[..|a|] ||
            (a != [] && a[|a| - 1] == JsonApi && a[..|a| - 1] == Cascade()[..|a| - 1])
  {
    if web.launches {
      var sub := SubredditPhase(PopularSubreddits, phrase, web, now);
      var n := |sub.1|;
      var subs := Subreddits(PopularSubreddits);
      assert sub.1 == subs[..n] by {
        forall k | 0 <= k < n ensures sub.1[k] == subs[k] {
          assert PopularSubreddits[..n][k] == PopularSubreddits[k];
        }
      }
      DecideFollowsCascade(phrase, RawPosts(web.load(MainSearch)), RawPosts(web.load(OldRedditSearch)),
                           sub, JsonPhase(web.api));
    }
  }

  lemma DecideFollowsCascade(phrase: string, main: seq<Post>, oldPosts: seq<Post>,
                             sub: (Option<seq<Post>>, seq<Target>), json: Option<seq<Post>>)
    requires |sub.1| <= |PopularSubreddits|
    requires sub.1 == Subreddits(PopularSubreddits)[..|sub.1|]
    ensures var a := Decide(phrase, main, oldPosts, sub, json).attempts;
            a == Cascade()[..|a|] ||
            (a != [] && a[|a| - 1] == JsonApi && a[..|a| - 1] == Cascade()[..|a| - 1])
  {
    var c := Cascade();
    var a := Decide(phrase, main, oldPosts, sub, json).attempts;
    if main == [] && oldPosts == [] {
      var before := [MainSearch, OldRedditSearch] + sub.1;
      assert before == c[..2 + |sub.1|];
      if a != before {
        assert a[..|a| - 1] == before;
      }
    } else if main == [] {
      assert a == c[..2];
    } else {
      assert a == c[..1];
    }
  }

  /** When no page shows a post and the JSON API yields no children, the
      search returns nothing; a browser that fails to launch tries nothing. */
  lemma AllFailReturnsEmpty(phrase: string, web: Web, now: int)
    requires forall t :: RawPosts(web.load(t)) == []
    requires JsonPhase(web.api).None?
    ensures SearchResult(phrase, web, now).posts == []
    ensures !web.launches ==> SearchResult(phrase, web, now).attempts == []
  {
    SubredditHitIsPage(PopularSubreddits, phrase, web, now);
  }

  /** Every returned post matches the phrase (an empty phrase filters
      nothing). Posts that come from a page, rather than the JSON API, are at
      most 25 and well formed. */
  lemma SearchResultsMatch(phrase: string, web: Web, now: int)
    ensures phrase != [] ==> forall p :: p in SearchResult(phrase, web, now).posts ==> ContainsKeyword(p.title, phrase)
    ensures Rendered(web, now) && JsonApi !in SearchResult(phrase, web, now).attempts ==>
              |SearchResult(phrase, web, now).posts| <= MaxExamined &&
              forall p :: p in SearchResult(phrase, web, now).posts ==> WellFormed(p, now)
  {
    var o := SearchResult(phrase, web, now);
    if web.launches {
      var raw := FilteredRaw(phrase, web, now);
      FilterIsSublist(raw, phrase);
      forall p | p in o.posts ensures p in raw && (phrase != [] ==> ContainsKeyword(p.title, phrase)) {
        if phrase != [] {
          FilterKeepsExactlyMatches(raw, phrase, p);
        }
      }
      if Rendered(web, now) && JsonApi !in o.attempts {
        var t :| raw == RawPosts(web.load(t));
        assert web.load(t).Loaded? || raw == [];
      }
    }
  }

  /** What the JSON approach hands to the filter: the mapped children, or
      nothing when the answer had no children or a child's mapping threw. */
  function JsonRaw(api: JsonResponse): seq<Post> {
    if JsonPhase(api).Some? then JsonPhase(api).value else []
  }

  /** The attempts `a` end at the approach that decided the search with the
      raw result `raw`: every target tried before the last showed no posts,
      a page tried last showed `raw` (non-empty), and the JSON API tried
      last gave `raw`. */
  ghost predicate LastDecides(web: Web, a: seq<Target>, raw: seq<Post>) {
    a != [] &&
    (forall i :: 0 <= i < |a| - 1 ==> RawPosts(web.load(a[i])) == []) &&
    (a[|a| - 1] != JsonApi ==> raw != [] && raw == RawPosts(web.load(a[|a| - 1]))) &&
    (a[|a| - 1] == JsonApi ==> raw == JsonRaw(web.api))
  }

  /** The posts a running search returns are the keyword-filtered raw
      result of the approach tried last, which is the first approach whose
      raw result is non-empty, or the JSON API when there is none. */
  lemma FilteredRaw(phrase: string, web: Web, now: int) returns (raw: seq<Post>)
    requires web.launches
    ensures SearchResult(phrase, web, now).posts == FilterByKeyword(raw, phrase)
    ensures LastDecides(web, SearchResult(phrase, web, now).attempts, raw)
    ensures JsonApi !in SearchResult(phrase, web, now).attempts ==> exists t :: raw == RawPosts(web.load(t))
  {
    var main := RawPosts(web.load(MainSearch));
    var oldPosts := RawPosts(web.load(OldRedditSearch));
    if main != [] {
      raw := main;
    } else if oldPosts != [] {
      raw := oldPosts;
    } else {
      raw := FilteredRawAfterPages(phrase, web, now);
    }
  }

  /** `FilteredRaw` once the main page and old.reddit showed nothing. */
  lemma FilteredRawAfterPages(phrase: string, web: Web, now: int) returns (raw: seq<Post>)
    requires web.launches && RawPosts(web.load(MainSearch)) == [] && RawPosts(web.load(OldRedditSearch)) == []
    ensures SearchResult(phrase, web, now).posts == FilterByKeyword(raw, phrase)
    ensures LastDecides(web, SearchResult(phrase, web, now).attempts, raw)
    ensures JsonApi !in SearchResult(phrase, web, now).attempts ==> exists t :: raw == RawPosts(web.load(t))
  {
    var r := SubredditPhase(PopularSubreddits, phrase, web, now);
    var a := SearchResult(phrase, web, now).attempts;
    SubredditTriedEmpty(PopularSubreddits, phrase, web, now);
    SubredditsNotJson(PopularSubreddits[..|r.1|]);
    if r.0.Some? {
      raw := r.0.value;
      assert a == [MainSearch, OldRedditSearch] + r.1;
      SubredditHitDecides(web, r.1, a, raw);
    } else {
      raw := JsonRaw(web.api);
      assert a == [MainSearch, OldRedditSearch] + r.1 + [JsonApi];
      JsonDecides(web, r.1, a);
    }
  }

  /** A subreddit hit after two empty pages decides the search. */
  lemma SubredditHitDecides(web: Web, tried: seq<Target>, a: seq<Target>, raw: seq<Post>)
    requires RawPosts(web.load(MainSearch)) == [] && RawPosts(web.load(OldRedditSearch)) == []
    requires a == [MainSearch, OldRedditSearch] + tried && tried != [] && JsonApi !in tried
    requires forall i :: 0 <= i < |tried| - 1 ==> RawPosts(web.load(tried[i])) == []
    requires raw != [] && raw == RawPosts(web.load(tried[|tried| - 1]))
    ensures LastDecides(web, a, raw)
  {
    assert forall i :: 2 <= i < |a| ==> a[i] == tried[i - 2];
  }

  /** After two empty pages and subreddit searches that all showed nothing,
      the JSON API decides the search. */
  lemma JsonDecides(web: Web, tried: seq<Target>, a: seq<Target>)
    requires RawPosts(web.load(MainSearch)) == [] && RawPosts(web.load(OldRedditSearch)) == []
    requires a == [MainSearch, OldRedditSearch] + tried + [JsonApi]
    requires forall i :: 0 <= i < |tried| ==> RawPosts(web.load(tried[i])) == []
    ensures LastDecides(web, a, JsonRaw(web.api))
  {
    assert forall i :: 2 <= i < |a| - 1 ==> a[i] == tried[i - 2];
  }

  /** No subreddit search is the JSON request. */
  lemma SubredditsNotJson(names: seq<string>)
    ensures JsonApi !in Subreddits(names)
  {
    var subs := Subreddits(names);
    assert forall i :: 0 <= i < |subs| ==> subs[i].SubredditSearch?;
  }
}
