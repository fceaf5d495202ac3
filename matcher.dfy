/** The phrase matcher `postContainsKeyword` and the filter
    `filterPostsByKeyword` of services/redditMonitor.js. */
module KeywordMatch {
  import opened Text
  import opened Posts
  import opened Seqs

  /** The non-empty strings of `ws`, in order. */
  function NonEmpty(ws: seq<string>): (r: seq<string>)
    ensures |r| <= |ws|
    ensures forall k :: 0 <= k < |r| ==> r[k] != [] && r[k] in ws
  {
    if ws == [] then []
    else (if ws[0] != [] then [ws[0]] else []) + NonEmpty(ws[1..])
  }

  /** `s.split(/\s+/).filter(word => word.length > 0)`: the words of `s`. */
  function Words(s: string): (r: seq<string>)
    ensures forall k :: 0 <= k < |r| ==> r[k] != [] && r[k] in SplitWs(s)
  {
    NonEmpty(SplitWs(s))
  }

  /** `kws` appears in `ws` as a contiguous run starting at index `i`. */
  predicate RunAt(ws: seq<string>, kws: seq<string>, i: int) {
    0 <= i && i + |kws| <= |ws| && ws[i..i + |kws|] == kws
  }

  predicate HasRun(ws: seq<string>, kws: seq<string>) {
    exists i :: 0 <= i <= |ws| - |kws| && RunAt(ws, kws, i)
  }

  /** Reference definition of `postContainsKeyword`, branch by branch: the
      guard, the raw substring test, then for a keyword of several words the
      collapsed-whitespace substring test and the word-run scan, and for a
      keyword of at most one word the whole-word test. An empty title stands
      for a missing one. */
  predicate ContainsKeyword(title: string, keyword: string) {
    if keyword == [] || title == [] then false
    else
      var t := Lower(title);
      var k := Lower(keyword);
      if Contains(t, k) then true
      else if |Words(k)| > 1 then Contains(Collapse(t), Collapse(k)) || HasRun(SplitWs(t), Words(k))
      else k in SplitWs(t)
  }

  /** `postContainsKeyword(post, keyword)`, with the word-run scan written as
      the source's nested loops over a `match` flag. */
  method PostContainsKeyword(post: Post, keyword: string) returns (b: bool)
    ensures b == ContainsKeyword(post.title, keyword)
  {
    if keyword == [] || post.title == [] {
      return false;
    }
    var titleLower := Lower(post.title);
    var keywordLower := Lower(keyword);
    if Contains(titleLower, keywordLower) {
      return true;
    }
    var keywordWords := Words(keywordLower);
    if |keywordWords| > 1 {
      // The source repeats the raw substring test here; it has already failed.
      var normalizedTitle := Collapse(titleLower);
      var normalizedKeyword := Collapse(keywordLower);
      if Contains(normalizedTitle, normalizedKeyword) {
        return true;
      }
      b := ScanWordRuns(SplitWs(titleLower), keywordWords);
      return;
    }
    var titleWords := SplitWs(titleLower);
    b := keywordLower in titleWords;
  }

  /** The outer loop of the word-run scan: tries each start position of the
      title words in turn. */
  method ScanWordRuns(titleWords: seq<string>, keywordWords: seq<string>) returns (found: bool)
    ensures found == HasRun(titleWords, keywordWords)
  {
    var i := 0;
    while i <= |titleWords| - |keywordWords|
      invariant 0 <= i
      invariant forall i' :: 0 <= i' < i ==> !RunAt(titleWords, keywordWords, i')
    {
      var matched := WordsMatchAt(titleWords, keywordWords, i);
      if matched {
        return true;
      }
      i := i + 1;
    }
    return false;
  }

  /** The inner loop of the word-run scan: compares the keyword words with
      the title words from position `i`, stopping at the first mismatch. */
  method WordsMatchAt(titleWords: seq<string>, keywordWords: seq<string>, i: nat) returns (matched: bool)
    requires i + |keywordWords| <= |titleWords|
    ensures matched == RunAt(titleWords, keywordWords, i)
  {
    var j := 0;
    while j < |keywordWords|
      invariant 0 <= j <= |keywordWords|
      invariant forall j' :: 0 <= j' < j ==> titleWords[i + j'] == keywordWords[j']
    {
      if titleWords[i + j] != keywordWords[j] {
        assert titleWords[i..i + |keywordWords|][j] != keywordWords[j];
        return false;
      }
      j := j + 1;
    }
    assert titleWords[i..i + |keywordWords|] == keywordWords;
    return true;
  }

  /** What the matcher accepts: a non-empty keyword and title, and either the
      lower-cased keyword occurs anywhere in the lower-cased title, or the
      keyword has several words and its collapsed form occurs in the collapsed
      title or its words occur as a run of title words. The whole-word test for
      one-word keywords adds nothing, since every title word occurs in the
      title. */
  lemma MatchCharacterisation(title: string, keyword: string)
    ensures ContainsKeyword(title, keyword) <==>
      keyword != [] && title != [] &&
      (Contains(Lower(title), Lower(keyword)) ||
       (|Words(Lower(keyword))| > 1 &&
        (Contains(Collapse(Lower(title)), Collapse(Lower(keyword))) ||
         HasRun(SplitWs(Lower(title)), Words(Lower(keyword))))))
  {
    var t := Lower(title);
    var k := Lower(keyword);
    if keyword != [] && title != [] && !Contains(t, k) && |Words(k)| <= 1 && k in SplitWs(t) {
      SplitWsFields(t, k);
    }
  }

  /** A one-word keyword matches inside a longer word: "hire" matches "hired". */
  lemma OneWordMatchesInsideWord()
    ensures ContainsKeyword("We hired a dev", "hire")
  {
    var t := Lower("We hired a dev");
    assert t[3..7] == "hire";
    assert Lower("hire") == "hire";
    assert OccursAt(t, "hire", 3);
  }

  /** Reordered words never match: for distinct lower-case words `a` and `b`,
      the title "b a" does not match the keyword "a b". */
  lemma ReorderedWordsNeverMatch(a: string, b: string)
    requires a != [] && b != [] && NoWs(a) && NoWs(b)
    requires IsLowerAscii(a) && IsLowerAscii(b) && a != b
    ensures !ContainsKeyword(b + " " + a, a + " " + b)
  {
    var title := b + " " + a;
    var keyword := a + " " + b;
    TwoWordFacts(a, b, keyword);
    TwoWordFacts(b, a, title);
    SwappedDiffer(a, b, title, keyword);
    NormalisedKeyword(title, keyword);
    NoLongerContains(title, keyword);
    NoRunOfSameLength([b, a], [a, b]);
  }

  /** On a title and keyword that lower-casing and collapsing leave alone, a
      keyword of several words matches by substring or by word run. */
  lemma NormalisedKeyword(title: string, keyword: string)
    requires title != [] && keyword != []
    requires Lower(title) == title && Lower(keyword) == keyword
    requires Collapse(title) == title && Collapse(keyword) == keyword
    requires |Words(keyword)| > 1
    ensures ContainsKeyword(title, keyword) <==> Contains(title, keyword) || HasRun(SplitWs(title), Words(keyword))
  {
  }

  lemma NoLongerContains(s: string, sub: string)
    requires |s| == |sub| && s != sub
    ensures !Contains(s, sub)
  {
    if Contains(s, sub) {
      SameLengthContains(s, sub);
    }
  }

  lemma NoRunOfSameLength(ws: seq<string>, kws: seq<string>)
    requires |ws| == |kws| && ws != kws
    ensures !HasRun(ws, kws)
  {
    assert ws[0..|kws|] == ws;
  }

  /** The lower-casing, splitting and collapsing of "a b". */
  lemma TwoWordFacts(a: string, b: string, s: string)
    requires a != [] && b != [] && NoWs(a) && NoWs(b)
    requires IsLowerAscii(a) && IsLowerAscii(b)
    requires s == a + " " + b
    ensures Lower(s) == s && Collapse(s) == s
    ensures SplitWs(s) == [a, b] && Words(s) == [a, b]
  {
    assert IsLowerAscii(s);
    LowerOfLower(s);
    CollapseTwoWords(a, b);
    SplitTwoWords(a, b);
    assert NonEmpty([a, b]) == [a, b] by {
      assert [a, b][1..] == [b];
    }
  }

  lemma SwappedDiffer(a: string, b: string, title: string, keyword: string)
    requires a != [] && b != [] && NoWs(a) && NoWs(b) && a != b
    requires title == b + " " + a && keyword == a + " " + b
    ensures |title| == |keyword| && title != keyword
  {
    if |a| == |b| {
      assert title[..|b|] == b && keyword[..|a|] == a;
    } else if |a| < |b| {
      assert keyword[|a|] == ' ' && title[|a|] == b[|a|];
    } else {
      assert title[|b|] == ' ' && keyword[|b|] == a[|b|];
    }
  }

  /* ---------------------------------------------------------------------- */
  /* filterPostsByKeyword                                                    */

  /** The posts of `posts` whose titles match `keyword`, in their order. */
  function KeepMatching(posts: seq<Post>, keyword: string): seq<Post>
  {
    if posts == [] then []
    else
      var last := posts[|posts| - 1];
      KeepMatching(posts[..|posts| - 1], keyword) + (if ContainsKeyword(last.title, keyword) then [last] else [])
  }

  /** `filterPostsByKeyword`: an empty keyword returns the posts unchanged. */
  function FilterByKeyword(posts: seq<Post>, keyword: string): seq<Post>
  {
    if keyword == [] then posts else KeepMatching(posts, keyword)
  }

  /** The source's loop that pushes matching posts into `filteredPosts`. */
  method FilterPostsByKeyword(posts: seq<Post>, keyword: string) returns (filtered: seq<Post>)
    ensures filtered == FilterByKeyword(posts, keyword)
  {
    if keyword == [] {
      return posts;
    }
    filtered := [];
    var i := 0;
    while i < |posts|
      invariant 0 <= i <= |posts|
      invariant filtered == KeepMatching(posts[..i], keyword)
    {
      var post := posts[i];
      var hit := PostContainsKeyword(post, keyword);
      assert posts[..i + 1][..i] == posts[..i];
      if hit {
        filtered := filtered + [post];
      }
      i := i + 1;
    }
    assert posts[..i] == posts;
  }

  /** With a non-empty keyword, the filter keeps exactly the matching posts:
      every kept post matches and every matching post is kept. */
  lemma {:induction false} FilterKeepsExactlyMatches(posts: seq<Post>, keyword: string, p: Post)
    requires keyword != []
    ensures p in FilterByKeyword(posts, keyword) <==> p in posts && ContainsKeyword(p.title, keyword)
    decreases |posts|
  {
    if posts != [] {
      var init := posts[..|posts| - 1];
      var last := posts[|posts| - 1];
      FilterKeepsExactlyMatches(init, keyword, p);
      assert posts == init + [last];
      var keep := ContainsKeyword(last.title, keyword);
      assert FilterByKeyword(posts, keyword) == FilterByKeyword(init, keyword) + (if keep then [last] else []);
    }
  }

  /** The filter never duplicates a post: its result takes each post at most
      as often as the input has it, and it is all of the input when every
      title matches. */
  lemma {:induction false} FilterIsSublist(posts: seq<Post>, keyword: string)
    ensures |FilterByKeyword(posts, keyword)| <= |posts|
    ensures multiset(FilterByKeyword(posts, keyword)) <= multiset(posts)
    ensures (forall k :: 0 <= k < |posts| ==> ContainsKeyword(posts[k].title, keyword)) ==>
              FilterByKeyword(posts, keyword) == posts
    decreases |posts|
  {
    if keyword != [] && posts != [] {
      var init := posts[..|posts| - 1];
      var last := posts[|posts| - 1];
      FilterIsSublist(init, keyword);
      assert posts == init + [last];
      var keep := ContainsKeyword(last.title, keyword);
      var r := FilterByKeyword(init, keyword);
      assert FilterByKeyword(posts, keyword) == r + (if keep then [last] else []);
      SubMultisetSnoc(r, init, last, keep);
      if forall k :: 0 <= k < |posts| ==> ContainsKeyword(posts[k].title, keyword) {
        assert forall k :: 0 <= k < |init| ==> init[k] == posts[k];
      }
    }
  }

  /** Filtering twice by the same keyword is the same as filtering once. */
  lemma {:induction false} FilterIdempotent(posts: seq<Post>, keyword: string)
    ensures FilterByKeyword(FilterByKeyword(posts, keyword), keyword) == FilterByKeyword(posts, keyword)
  {
    var r := FilterByKeyword(posts, keyword);
    if keyword != [] {
      forall k | 0 <= k < |r| ensures ContainsKeyword(r[k].title, keyword) {
        FilterKeepsExactlyMatches(posts, keyword, r[k]);
      }
      FilterIsSublist(r, keyword);
    }
  }
}
