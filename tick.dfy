/** One monitoring tick, `monitorGuild` of services/redditMonitor.js: look
    the guild up, load its phrases and settings, search every phrase, and for
    each post found that passes the age filter and has not been recorded for
    this guild, send it, record it and add it to the lead sheet. Discord, the
    browser and the clocks are inputs. */
module Tick {
  import opened Text
  import opened Posts
  import opened KeywordMatch
  import opened TimeRange
  import opened Search
  import opened Store
  import opened Monitoring
  import opened Sheets

  /** What `client.guilds.fetch` does: resolve to a guild, resolve to
      nothing, or throw (caught by the tick's outer `catch`). */
  datatype GuildLookup = GuildFound | GuildMissing | GuildThrew

  /** Everything outside the tables that one tick depends on. */
  datatype Env = Env(
    guild: GuildLookup,
    channelFound: bool,                 // `guild.channels.fetch` found the channel
    web: (string, string) -> Web,       // the browser for (phrase, search window)
    sendOk: (string, Post) -> bool,     // `channel.send` succeeds for (phrase, post)
    sheetsEnabled: bool,                // GOOGLE_SHEETS_ENABLED is "true"
    sheetCallOk: bool,                  // the sheet append succeeds
    now: int,                           // Unix seconds, for the age filter
    dbNow: int,                         // CURRENT_TIMESTAMP for new post rows
    nowIso: string)                     // the ISO timestamp written to the sheet

  /** The tick's fixed parameters once settings are loaded. */
  datatype Context = Context(guildId: string, postAge: string, env: Env, sheetsInitialized: bool)

  /** A post sent to the guild's channel for a phrase. */
  datatype Delivery = Delivery(phrase: string, post: Post)

  /** What a tick changes: the posts table, the sheet, and what was sent. */
  datatype TickState = TickState(posts: seq<PostRow>, sheet: seq<seq<Cell>>, sent: seq<Delivery>)

  /** How a tick ended. */
  datatype TickOutcome = Errored | StoppedMonitoring | NoSettings | NoChannel | Searched

  /** The lead the tick hands to the sheet: the post and its phrase, with no
      permalink. */
  function Lead(post: Post, phrase: string): LeadData {
    LeadData(post.title, post.author, post.subreddit, Str(post.score), Str(post.numComments),
             post.url, "", phrase)
  }

  /** The row `markPostAsNotified` records for a delivery. */
  function RowFor(ctx: Context, phrase: string, post: Post): PostRow {
    PostRow(post.id, ctx.guildId, phrase, post.title, post.url, post.subreddit, ctx.env.dbNow)
  }

  /** One (phrase, post) candidate: skip it when it fails the age filter or
      is recorded for this guild; otherwise send it. A failed send records
      nothing. After a send, the record fails when any guild already has the
      id, and the sheet is then skipped. */
  function Step(ctx: Context, st: TickState, phrase: string, post: Post): TickState {
    if !IsPostInTimeRange(post.created, ctx.env.now, ctx.postAge) then st
    else if Notified(st.posts, post.id, ctx.guildId) then st
    else if !ctx.env.sendOk(phrase, post) then st
    else
      var sent := st.sent + [Delivery(phrase, post)];
      if HasRedditId(st.posts, post.id) then st.(sent := sent)
      else
        var sheet := if ctx.env.sheetsEnabled && ctx.sheetsInitialized && ctx.env.sheetCallOk
                     then st.sheet + [EncodeRow(ctx.env.nowIso, Lead(post, phrase))]
                     else st.sheet;
        TickState(st.posts + [RowFor(ctx, phrase, post)], sheet, sent)
  }

  /** The candidates in the order the tick visits them. */
  function Run(ctx: Context, st: TickState, cs: seq<Delivery>): TickState {
    if cs == [] then st
    else
      var last := cs[|cs| - 1];
      Step(ctx, Run(ctx, st, cs[..|cs| - 1]), last.phrase, last.post)
  }

  /** Each post a search returns, paired with its phrase. */
  function Pairs(phrase: string, posts: seq<Post>): (r: seq<Delivery>)
    ensures |r| == |posts|
    ensures forall k :: 0 <= k < |r| ==> r[k] == Delivery(phrase, posts[k])
  {
    seq(|posts|, k requires 0 <= k < |posts| => Delivery(phrase, posts[k]))
  }

  /** The posts the search for one phrase returns. */
  function PhrasePosts(env: Env, phrase: string, window: string): seq<Post> {
    SearchResult(phrase, env.web(phrase, window), env.now).posts
  }

  /** Every phrase's search results, phrase by phrase. */
  function Candidates(phrases: seq<string>, env: Env, window: string): seq<Delivery> {
    if phrases == [] then []
    else
      var p := phrases[|phrases| - 1];
      Candidates(phrases[..|phrases| - 1], env, window) + Pairs(p, PhrasePosts(env, p, window))
  }

  /** `st` is where the tick stands after the candidates of the first `i` phrases. */
  ghost predicate FoldedUpTo(ctx: Context, st0: TickState, phrases: seq<string>, i: nat, window: string, st: TickState)
    requires i <= |phrases|
  {
    st == Run(ctx, st0, Candidates(phrases[..i], ctx.env, window))
  }

  /** `fin` is `mid` after the candidates of one phrase. */
  ghost predicate PhraseDone(ctx: Context, phrase: string, window: string, mid: TickState, fin: TickState) {
    fin == Run(ctx, mid, Pairs(phrase, PhrasePosts(ctx.env, phrase, window)))
  }

  /** After every phrase, the tick stands at the fold over all candidates. */
  lemma FoldedAll(ctx: Context, st0: TickState, phrases: seq<string>, window: string, st: TickState)
    requires FoldedUpTo(ctx, st0, phrases, |phrases|, window, st)
    ensures st == Run(ctx, st0, Candidates(phrases, ctx.env, window))
  {
    assert phrases[..|phrases|] == phrases;
  }

  /** One more phrase of the loop: its pairs continue the fold of the phrases before it. */
  lemma PhraseStep(ctx: Context, st0: TickState, phrases: seq<string>, i: nat, window: string,
                   mid: TickState, fin: TickState)
    requires i < |phrases|
    requires FoldedUpTo(ctx, st0, phrases, i, window, mid)
    requires PhraseDone(ctx, phrases[i], window, mid, fin)
    ensures FoldedUpTo(ctx, st0, phrases, i + 1, window, fin)
  {
    CandidatesSnoc(phrases, i, ctx.env, window);
    RunAppend(ctx, st0, Candidates(phrases[..i], ctx.env, window), Pairs(phrases[i], PhrasePosts(ctx.env, phrases[i], window)));
  }

  /** One more phrase adds its search results at the end. */
  lemma CandidatesSnoc(phrases: seq<string>, i: nat, env: Env, window: string)
    requires i < |phrases|
    ensures var p := phrases[i];
            Candidates(phrases[..i + 1], env, window) ==
              Candidates(phrases[..i], env, window) + Pairs(p, PhrasePosts(env, p, window))
  {
    assert phrases[..i + 1][..i] == phrases[..i];
  }

  lemma RunSnoc(ctx: Context, st: TickState, cs: seq<Delivery>, d: Delivery)
    ensures Run(ctx, st, cs + [d]) == Step(ctx, Run(ctx, st, cs), d.phrase, d.post)
  {
    assert (cs + [d])[..|cs|] == cs;
  }

  /** Visiting `a` and then `b` is visiting `a + b`. */
  lemma {:induction false} RunAppend(ctx: Context, st: TickState, a: seq<Delivery>, b: seq<Delivery>)
    ensures Run(ctx, Run(ctx, st, a), b) == Run(ctx, st, a + b)
    decreases |b|
  {
    if b == [] {
      assert a + b == a;
    } else {
      var b' := b[..|b| - 1];
      var d := b[|b| - 1];
      RunAppend(ctx, st, a, b');
      assert b == b' + [d];
      assert a + b == (a + b') + [d];
      RunSnoc(ctx, st, a + b', d);
      RunSnoc(ctx, Run(ctx, st, a), b', d);
    }
  }

  /* ---------------------------------------------------------------------- */
  /* What a tick guarantees                                                  */

  /** The rows a tick adds belong to the ticking guild and carry ids that no
      row had before; the UNIQUE constraint is kept; the sheet, the table and
      the sent list only grow, and the sheet by no more rows than the table. */
  lemma {:induction false} RunGrows(ctx: Context, st: TickState, cs: seq<Delivery>)
    requires UniqueRedditIds(st.posts)
    ensures var r := Run(ctx, st, cs);
      |st.posts| <= |r.posts| && r.posts[..|st.posts|] == st.posts &&
      |st.sheet| <= |r.sheet| && r.sheet[..|st.sheet|] == st.sheet &&
      |st.sent| <= |r.sent| && r.sent[..|st.sent|] == st.sent &&
      |r.sheet| - |st.sheet| <= |r.posts| - |st.posts| <= |r.sent| - |st.sent| &&
      UniqueRedditIds(r.posts) &&
      (forall k :: |st.posts| <= k < |r.posts| ==>
         r.posts[k].guildId == ctx.guildId && !HasRedditId(st.posts, r.posts[k].redditId))
    decreases |cs|
  {
    if cs != [] {
      var cs' := cs[..|cs| - 1];
      var d := cs[|cs| - 1];
      RunGrows(ctx, st, cs');
      var m := Run(ctx, st, cs');
      var r := Step(ctx, m, d.phrase, d.post);
      assert r == Run(ctx, st, cs);
      if r.posts != m.posts {
        assert r.posts == m.posts + [RowFor(ctx, d.phrase, d.post)];
        assert !HasRedditId(m.posts, d.post.id);
        forall i, j | 0 <= i < j < |r.posts| ensures r.posts[i].redditId != r.posts[j].redditId {
          if j == |m.posts| {
            assert m.posts[i].redditId != d.post.id;
          }
        }
      }
    }
  }

  /** Every post a tick sends passed the age filter and was not recorded for
      this guild when the tick began, and is one of the candidates. */
  lemma {:induction false} SentWereNew(ctx: Context, st: TickState, cs: seq<Delivery>)
    requires UniqueRedditIds(st.posts)
    ensures var r := Run(ctx, st, cs);
      |st.sent| <= |r.sent| &&
      forall k :: |st.sent| <= k < |r.sent| ==>
        r.sent[k] in cs &&
        IsPostInTimeRange(r.sent[k].post.created, ctx.env.now, ctx.postAge) &&
        ctx.env.sendOk(r.sent[k].phrase, r.sent[k].post) &&
        !Notified(st.posts, r.sent[k].post.id, ctx.guildId)
    decreases |cs|
  {
    if cs != [] {
      var cs' := cs[..|cs| - 1];
      var d := cs[|cs| - 1];
      SentWereNew(ctx, st, cs');
      RunGrows(ctx, st, cs');
      var m := Run(ctx, st, cs');
      var r := Step(ctx, m, d.phrase, d.post);
      assert r == Run(ctx, st, cs);
      assert forall x :: x in cs' ==> x in cs;
      if r.sent != m.sent {
        assert r.sent == m.sent + [d];
      }
    }
  }

  /** Within a tick, a post id is sent twice only if some row already held
      that id when the tick began (necessarily another guild's row, by
      `SentWereNew`): a recorded delivery stops every later one. */
  lemma {:induction false} RepeatsNeedForeignRow(ctx: Context, st: TickState, cs: seq<Delivery>)
    requires UniqueRedditIds(st.posts)
    ensures var r := Run(ctx, st, cs);
      forall i, j :: |st.sent| <= i < j < |r.sent| && r.sent[i].post.id == r.sent[j].post.id ==>
        HasRedditId(st.posts, r.sent[i].post.id)
    ensures var r := Run(ctx, st, cs);
      forall i :: |st.sent| <= i < |r.sent| ==>
        HasRedditId(st.posts, r.sent[i].post.id) || Notified(r.posts, r.sent[i].post.id, ctx.guildId)
    decreases |cs|
  {
    if cs != [] {
      var cs' := cs[..|cs| - 1];
      var d := cs[|cs| - 1];
      var g := ctx.guildId;
      RepeatsNeedForeignRow(ctx, st, cs');
      RunGrows(ctx, st, cs');
      var m := Run(ctx, st, cs');
      var r := Step(ctx, m, d.phrase, d.post);
      assert r == Run(ctx, st, cs);
      StepSent(ctx, m, d);
      NotifiedMono(m.posts, r.posts, g);
      if r.sent != m.sent {
        var x := d.post.id;
        if HasRedditId(m.posts, x) {
          OldRowHolds(st.posts, m.posts, g, x);
        }
        assert HasRedditId(st.posts, x) || Notified(r.posts, x, g) by {
          if r.posts != m.posts {
            assert r.posts[|m.posts|] == RowFor(ctx, d.phrase, d.post);
          }
        }
      }
    }
  }

  /** One candidate either changes nothing, or is sent while not yet
      notified for the guild, and then either a row already held its id or
      a row for the guild is added. */
  lemma StepSent(ctx: Context, m: TickState, d: Delivery)
    ensures var r := Step(ctx, m, d.phrase, d.post);
      (r.sent == m.sent && r.posts == m.posts) ||
      (r.sent == m.sent + [d] && !Notified(m.posts, d.post.id, ctx.guildId) &&
       ((r.posts == m.posts && HasRedditId(m.posts, d.post.id)) ||
        r.posts == m.posts + [RowFor(ctx, d.phrase, d.post)]))
  {
  }

  /** Notified only gains rows as the table grows at its end. */
  lemma NotifiedMono(p: seq<PostRow>, q: seq<PostRow>, g: string)
    requires |p| <= |q| && q[..|p|] == p
    ensures forall x :: Notified(p, x, g) ==> Notified(q, x, g)
  {
    forall x | Notified(p, x, g) ensures Notified(q, x, g) {
      var k :| 0 <= k < |p| && p[k].redditId == x && p[k].guildId == g;
      assert q[k] == p[k];
    }
  }

  /** A row for an id the guild has not been notified of, in a table that
      grew from `p` only by rows of that guild, was already in `p`. */
  lemma OldRowHolds(p: seq<PostRow>, q: seq<PostRow>, g: string, x: string)
    requires |p| <= |q| && q[..|p|] == p
    requires forall k :: |p| <= k < |q| ==> q[k].guildId == g
    requires HasRedditId(q, x) && !Notified(q, x, g)
    ensures HasRedditId(p, x)
  {
    var k :| 0 <= k < |q| && q[k].redditId == x;
    assert q[k].guildId != g;
    assert p[k] == q[k];
  }

  /** A post another guild has recorded is sent again every time it comes
      up: the record fails on the UNIQUE id, so nothing stops the next send. */
  lemma ForeignPostResent(ctx: Context, st: TickState, phrase: string, post: Post, h: string)
    requires UniqueRedditIds(st.posts)
    requires h != ctx.guildId && Notified(st.posts, post.id, h)
    requires IsPostInTimeRange(post.created, ctx.env.now, ctx.postAge) && ctx.env.sendOk(phrase, post)
    ensures var st1 := Step(ctx, st, phrase, post);
      st1 == st.(sent := st.sent + [Delivery(phrase, post)]) &&
      Step(ctx, st1, phrase, post) == st.(sent := st.sent + [Delivery(phrase, post), Delivery(phrase, post)])
  {
    CrossGuildRow(st.posts, post.id, ctx.guildId, h);
  }

  /** A post no guild has recorded is recorded by its first send and never
      sent again afterwards. */
  lemma FreshPostSentOnce(ctx: Context, st: TickState, phrase: string, phrase2: string, post: Post)
    requires !HasRedditId(st.posts, post.id)
    requires IsPostInTimeRange(post.created, ctx.env.now, ctx.postAge) && ctx.env.sendOk(phrase, post)
    ensures var st1 := Step(ctx, st, phrase, post);
      st1.posts == st.posts + [RowFor(ctx, phrase, post)] &&
      st1.sent == st.sent + [Delivery(phrase, post)] &&
      Step(ctx, st1, phrase2, post) == st1
  {
    var st1 := Step(ctx, st, phrase, post);
    assert st1.posts[|st.posts|].redditId == post.id;
  }

  /** Every candidate is a (phrase, post) pair of one of the guild's phrases
      whose search found that post, so its title contains the phrase. */
  lemma {:induction false} CandidatesMatch(phrases: seq<string>, env: Env, window: string)
    ensures forall d :: d in Candidates(phrases, env, window) ==>
      d.phrase in phrases && d.post in SearchResult(d.phrase, env.web(d.phrase, window), env.now).posts &&
      (d.phrase != [] ==> ContainsKeyword(d.post.title, d.phrase))
    decreases |phrases|
  {
    if phrases != [] {
      var front := phrases[..|phrases| - 1];
      var p := phrases[|phrases| - 1];
      CandidatesMatch(front, env, window);
      SearchResultsMatch(p, env.web(p, window), env.now);
      assert forall q :: q in front ==> q in phrases;
      var ps := SearchResult(p, env.web(p, window), env.now).posts;
      forall d | d in Pairs(p, ps)
        ensures d.phrase == p && d.post in ps
      {
        var k :| 0 <= k < |Pairs(p, ps)| && Pairs(p, ps)[k] == d;
      }
    }
  }

  /** The body of the inner loop for one post: the age filter, the lookup,
      the send, the record and the sheet. */
  method ProcessPost(ctx: Context, phrase: string, post: Post, db: Database, sheets: SheetsService,
                     sent: seq<Delivery>) returns (sent': seq<Delivery>)
    requires db.Valid() && ctx.sheetsInitialized == sheets.initialized
    modifies db, sheets
    ensures db.Valid() && db.guilds == old(db.guilds) && db.phrases == old(db.phrases)
    ensures sheets.initialized == old(sheets.initialized)
    ensures TickState(db.posts, sheets.sheet, sent') ==
              Step(ctx, TickState(old(db.posts), old(sheets.sheet), sent), phrase, post)
  {
    sent' := sent;
    var env := ctx.env;
    if !IsPostInTimeRange(post.created, env.now, ctx.postAge) {
      return;
    }
    var alreadyNotified := db.IsPostNotified(post.id, ctx.guildId);
    if alreadyNotified {
      return;
    }
    if !env.sendOk(phrase, post) {
      return;
    }
    sent' := sent' + [Delivery(phrase, post)];
    var marked := db.MarkPostAsNotified(post.id, ctx.guildId, phrase, post.title, post.url, post.subreddit, env.dbNow);
    if marked && env.sheetsEnabled {
      var _ := sheets.AddPostToSheet(Lead(post, phrase), env.nowIso, env.sheetCallOk);
    }
  }

  /** The inner loop over one phrase's posts. */
  method ProcessPosts(ctx: Context, phrase: string, posts: seq<Post>, db: Database, sheets: SheetsService,
                      sent: seq<Delivery>) returns (sent': seq<Delivery>)
    requires db.Valid() && ctx.sheetsInitialized == sheets.initialized
    modifies db, sheets
    ensures db.Valid() && db.guilds == old(db.guilds) && db.phrases == old(db.phrases)
    ensures sheets.initialized == old(sheets.initialized)
    ensures TickState(db.posts, sheets.sheet, sent') ==
              Run(ctx, TickState(old(db.posts), old(sheets.sheet), sent), Pairs(phrase, posts))
  {
    ghost var st := TickState(db.posts, sheets.sheet, sent);
    sent' := sent;
    var j := 0;
    while j < |posts|
      invariant 0 <= j <= |posts|
      invariant db.Valid() && db.guilds == old(db.guilds) && db.phrases == old(db.phrases)
      invariant sheets.initialized == old(sheets.initialized)
      invariant TickState(db.posts, sheets.sheet, sent') == Run(ctx, st, Pairs(phrase, posts[..j]))
    {
      RunSnoc(ctx, st, Pairs(phrase, posts[..j]), Delivery(phrase, posts[j]));
      assert Pairs(phrase, posts[..j + 1]) == Pairs(phrase, posts[..j]) + [Delivery(phrase, posts[j])];
      sent' := ProcessPost(ctx, phrase, posts[j], db, sheets, sent');
      j := j + 1;
    }
    assert posts[..j] == posts;
  }

  /** The `for` loop of `monitorGuild` over the guild's phrases: search each
      phrase and process the posts found, in order. */
  method SearchPhrases(ctx: Context, phrases: seq<string>, timeFilter: string, db: Database, sheets: SheetsService)
    returns (sent: seq<Delivery>)
    requires db.Valid() && ctx.sheetsInitialized == sheets.initialized
    modifies db, sheets
    ensures db.Valid() && db.guilds == old(db.guilds) && db.phrases == old(db.phrases)
    ensures sheets.initialized == old(sheets.initialized)
    ensures TickState(db.posts, sheets.sheet, sent) ==
              Run(ctx, TickState(old(db.posts), old(sheets.sheet), []), Candidates(phrases, ctx.env, timeFilter))
  {
    ghost var st0 := TickState(db.posts, sheets.sheet, []);
    sent := [];
    var i := 0;
    while i < |phrases|
      invariant 0 <= i <= |phrases|
      invariant db.Valid() && db.guilds == old(db.guilds) && db.phrases == old(db.phrases)
      invariant sheets.initialized == old(sheets.initialized)
      invariant FoldedUpTo(ctx, st0, phrases, i, timeFilter, TickState(db.posts, sheets.sheet, sent))
    {
      ghost var mid := TickState(db.posts, sheets.sheet, sent);
      sent := SearchPhrase(ctx, phrases[i], timeFilter, db, sheets, sent);
      PhraseStep(ctx, st0, phrases, i, timeFilter, mid, TickState(db.posts, sheets.sheet, sent));
      i := i + 1;
    }
    FoldedAll(ctx, st0, phrases, timeFilter, TickState(db.posts, sheets.sheet, sent));
  }

  /** One pass of that loop: search the phrase, then process its posts. */
  method SearchPhrase(ctx: Context, phrase: string, timeFilter: string, db: Database, sheets: SheetsService,
                      sent: seq<Delivery>) returns (sent': seq<Delivery>)
    requires db.Valid() && ctx.sheetsInitialized == sheets.initialized
    modifies db, sheets
    ensures db.Valid() && db.guilds == old(db.guilds) && db.phrases == old(db.phrases)
    ensures sheets.initialized == old(sheets.initialized)
    ensures PhraseDone(ctx, phrase, timeFilter, TickState(old(db.posts), old(sheets.sheet), sent), TickState(db.posts, sheets.sheet, sent'))
  {
    var posts, _ := SearchReddit(phrase, ctx.env.web(phrase, timeFilter), ctx.env.now);
    sent' := ProcessPosts(ctx, phrase, posts, db, sheets, sent);
  }

  /** `monitorGuild(g)`. */
  method MonitorGuild(g: string, env: Env, db: Database, reg: Registry, sheets: SheetsService)
    returns (outcome: TickOutcome, sent: seq<Delivery>)
    requires db.Valid() && reg.Valid()
    modifies db, reg, sheets
    ensures db.Valid() && reg.Valid()
    ensures db.guilds == old(db.guilds) && db.phrases == old(db.phrases)
    ensures sheets.initialized == old(sheets.initialized)
    ensures outcome == StoppedMonitoring <==>
              env.guild == GuildMissing || (env.guild == GuildFound && PhrasesOf(old(db.phrases), g) == [])
    ensures outcome == StoppedMonitoring ==> reg.jobs == StopEntry(old(reg.jobs), g)
    ensures outcome != StoppedMonitoring ==> reg.jobs == old(reg.jobs)
    ensures outcome != Searched ==> db.posts == old(db.posts) && sheets.sheet == old(sheets.sheet) && sent == []
    ensures outcome == Searched <==>
              env.guild == GuildFound && PhrasesOf(old(db.phrases), g) != [] && g in old(db.guilds) && env.channelFound
    ensures outcome == Searched ==>
              var ctx := Context(g, old(db.guilds)[g].postAge, env, old(sheets.initialized));
              var window := SearchWindow(old(db.guilds)[g].postAge);
              TickState(db.posts, sheets.sheet, sent) ==
                Run(ctx, TickState(old(db.posts), old(sheets.sheet), []), Candidates(PhrasesOf(old(db.phrases), g), env, window))
  {
    sent := [];
    if env.guild == GuildThrew {
      return Errored, [];
    }
    if env.guild == GuildMissing {
      var _ := reg.StopMonitoring(g);
      return StoppedMonitoring, [];
    }
    var phrases := db.GetGuildPhrases(g);
    if phrases == [] {
      var _ := reg.StopMonitoring(g);
      return StoppedMonitoring, [];
    }
    if g !in db.guilds {
      return NoSettings, [];
    }
    var settings := db.guilds[g];
    var timeFilter := SearchWindow(settings.postAge);
    if !env.channelFound {
      return NoChannel, [];
    }
    var ctx := Context(g, settings.postAge, env, sheets.initialized);
    sent := SearchPhrases(ctx, phrases, timeFilter, db, sheets);
    outcome := Searched;
  }
}
