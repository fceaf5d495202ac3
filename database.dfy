/** The tables of services/database.js and the effect of each SQL statement
    on them, in memory. Foreign keys are never switched on by the source, so
    replacing a guild row deletes nothing else. `CURRENT_TIMESTAMP` is a
    parameter, and "ordered by `created_at`" is insertion order. */
module Store {
  import opened Seqs

  /** A `guilds` row, keyed by `guild_id`. */
  datatype GuildRow = GuildRow(channelId: string, postAge: string)

  /** A `phrases` row. The table has no uniqueness besides its own `id`. */
  datatype PhraseRow = PhraseRow(guildId: string, phrase: string)

  /** A `posts` row; `reddit_id` is UNIQUE across the whole table. */
  datatype PostRow = PostRow(
    redditId: string, guildId: string, phrase: string, title: string,
    url: string, subreddit: string, createdAt: int)

  /* ---------------------------------------------------------------------- */
  /* Queries                                                                 */

  /** `SELECT phrase FROM phrases WHERE guild_id = g`, in table order. */
  function PhrasesOf(rows: seq<PhraseRow>, g: string): (r: seq<string>)
    ensures |r| <= |rows|
    ensures forall p :: p in r <==> PhraseRow(g, p) in rows
  {
    if rows == [] then []
    else
      assert rows == [rows[0]] + rows[1..];
      (if rows[0].guildId == g then [rows[0].phrase] else []) + PhrasesOf(rows[1..], g)
  }

  /** `SELECT id FROM posts WHERE reddit_id = r AND guild_id = g` finds a row. */
  predicate Notified(posts: seq<PostRow>, redditId: string, g: string) {
    exists k :: 0 <= k < |posts| && posts[k].redditId == redditId && posts[k].guildId == g
  }

  /** Some row of any guild has this `reddit_id`. */
  predicate HasRedditId(posts: seq<PostRow>, redditId: string) {
    exists k :: 0 <= k < |posts| && posts[k].redditId == redditId
  }

  /** The UNIQUE constraint on `reddit_id`. */
  predicate UniqueRedditIds(posts: seq<PostRow>) {
    forall i, j :: 0 <= i < j < |posts| ==> posts[i].redditId != posts[j].redditId
  }

  /** The rows `addPhrases` inserts for `phrases`, one per entry. */
  function RowsFor(g: string, phrases: seq<string>): (r: seq<PhraseRow>)
    ensures |r| == |phrases|
    ensures forall k :: 0 <= k < |r| ==> r[k] == PhraseRow(g, phrases[k])
  {
    seq(|phrases|, k requires 0 <= k < |phrases| => PhraseRow(g, phrases[k]))
  }

  /** The rows left by a DELETE with the condition `gone`. */
  function Keep(rows: seq<PhraseRow>, g: string, phrase: string, wholeGuild: bool): (r: seq<PhraseRow>)
    ensures |r| <= |rows|
    ensures forall x :: x in r <==> x in rows && !(x.guildId == g && (wholeGuild || x.phrase == phrase))
  {
    if rows == [] then []
    else
      var x := rows[0];
      (if x.guildId == g && (wholeGuild || x.phrase == phrase) then [] else [x]) + Keep(rows[1..], g, phrase, wholeGuild)
  }

  /** The rows of `posts` created at or after `cutoff`. */
  function Recent(posts: seq<PostRow>, cutoff: int): (r: seq<PostRow>)
    ensures |r| <= |posts|
    ensures forall x :: x in r <==> x in posts && x.createdAt >= cutoff
  {
    if posts == [] then []
    else (if posts[0].createdAt < cutoff then [] else [posts[0]]) + Recent(posts[1..], cutoff)
  }

  /** The columns `updateGuildSettings` may set. */
  datatype Column = ChannelIdColumn | PostAgeColumn

  /** `UPDATE guilds SET <updates> ...` applied to one row. */
  function ApplyUpdates(row: GuildRow, updates: seq<Column>, values: seq<string>): GuildRow
    requires |updates| == |values|
    decreases |updates|
  {
    if updates == [] then row
    else
      var row' := match updates[0]
        case ChannelIdColumn => row.(channelId := values[0])
        case PostAgeColumn => row.(postAge := values[0]);
      ApplyUpdates(row', updates[1..], values[1..])
  }

  /** The assignments `updateGuildSettings` builds set exactly the supplied
      fields. */
  lemma SettingsUpdate(row: GuildRow, channelId: string, postAge: string,
                       updates: seq<Column>, values: seq<string>)
    requires updates == (if channelId != "" then [ChannelIdColumn] else []) + (if postAge != "" then [PostAgeColumn] else [])
    requires values == (if channelId != "" then [channelId] else []) + (if postAge != "" then [postAge] else [])
    ensures |updates| == |values|
    ensures ApplyUpdates(row, updates, values) ==
              GuildRow(if channelId != "" then channelId else row.channelId,
                       if postAge != "" then postAge else row.postAge)
  {
    if channelId != "" && postAge != "" {
      assert updates[1..] == [PostAgeColumn] && values[1..] == [postAge];
      var r1 := row.(channelId := channelId);
      assert ApplyUpdates(row, updates, values) == ApplyUpdates(r1, [PostAgeColumn], [postAge]);
      assert [PostAgeColumn][1..] == [] && [postAge][1..] == [];
      assert ApplyUpdates(r1, [PostAgeColumn], [postAge]) == ApplyUpdates(r1.(postAge := postAge), [], []);
    } else if channelId != "" || postAge != "" {
      assert updates[1..] == [];
    }
  }

  /* ---------------------------------------------------------------------- */
  /* Properties of the queries                                               */

  /** Appending rows appends their phrases. */
  lemma {:induction false} PhrasesOfAppend(a: seq<PhraseRow>, b: seq<PhraseRow>, g: string)
    ensures PhrasesOf(a + b, g) == PhrasesOf(a, g) + PhrasesOf(b, g)
    decreases |a|
  {
    if a != [] {
      var h, t := a[0], a[1..];
      HeadSplit(a, b);
      PhrasesOfAppend(t, b, g);
      PhrasesOfCons(h, t + b, g);
      PhrasesOfCons(h, t, g);
      Reassociate(if h.guildId == g then [h.phrase] else [], PhrasesOf(t, g), PhrasesOf(b, g),
                  PhrasesOf(a + b, g), PhrasesOf(a, g));
    } else {
      assert a + b == b;
    }
  }

  lemma PhrasesOfCons(x: PhraseRow, rows: seq<PhraseRow>, g: string)
    ensures PhrasesOf([x] + rows, g) == (if x.guildId == g then [x.phrase] else []) + PhrasesOf(rows, g)
  {
    assert ([x] + rows)[1..] == rows;
  }

  /** The rows inserted for `phrases` are all of `phrases` for `g`, in order
      and with duplicates, and nothing for any other guild. */
  lemma {:induction false} PhrasesOfRowsFor(g: string, phrases: seq<string>, h: string)
    ensures PhrasesOf(RowsFor(g, phrases), h) == if h == g then phrases else []
    decreases |phrases|
  {
    if phrases != [] {
      PhrasesOfRowsFor(g, phrases[1..], h);
      assert RowsFor(g, phrases)[1..] == RowsFor(g, phrases[1..]);
    }
  }

  /** `addPhrases` appends exactly the given phrases to the guild's list,
      duplicates included, and leaves every other guild's list alone. */
  lemma AddedPhrasesAppear(rows: seq<PhraseRow>, g: string, phrases: seq<string>, h: string)
    ensures PhrasesOf(rows + RowsFor(g, phrases), g) == PhrasesOf(rows, g) + phrases
    ensures h != g ==> PhrasesOf(rows + RowsFor(g, phrases), h) == PhrasesOf(rows, h)
  {
    PhrasesOfAppend(rows, RowsFor(g, phrases), g);
    PhrasesOfRowsFor(g, phrases, g);
    PhrasesOfAppend(rows, RowsFor(g, phrases), h);
    PhrasesOfRowsFor(g, phrases, h);
  }

  /** Adding a phrase that is already stored stores it a second time. */
  lemma DuplicatePhraseStoredTwice(rows: seq<PhraseRow>, g: string, p: string)
    requires p in PhrasesOf(rows, g)
    ensures |PhrasesOf(rows + RowsFor(g, [p]), g)| == |PhrasesOf(rows, g)| + 1
  {
    AddedPhrasesAppear(rows, g, [p], g);
  }

  /** Deleting (g, p) removes p from g's list, leaves the rest of g's list
      and every other guild's list, and deletes something exactly when g
      listed p. */
  lemma RemovedPhraseGone(rows: seq<PhraseRow>, g: string, p: string, q: string, h: string)
    ensures p !in PhrasesOf(Keep(rows, g, p, false), g)
    ensures q != p ==> (q in PhrasesOf(Keep(rows, g, p, false), g) <==> q in PhrasesOf(rows, g))
    ensures h != g ==> PhrasesOf(Keep(rows, g, p, false), h) == PhrasesOf(rows, h)
    ensures |Keep(rows, g, p, false)| < |rows| <==> p in PhrasesOf(rows, g)
  {
    if h != g {
      KeepOtherGuild(rows, g, p, false, h);
    }
    KeepShrinks(rows, g, p, false);
  }

  /** Clearing a guild leaves it no phrases, removes exactly its rows, and
      leaves every other guild's list alone. */
  lemma ClearedGuildEmpty(rows: seq<PhraseRow>, g: string, h: string)
    ensures PhrasesOf(Keep(rows, g, "", true), g) == []
    ensures |rows| - |Keep(rows, g, "", true)| == |PhrasesOf(rows, g)|
    ensures h != g ==> PhrasesOf(Keep(rows, g, "", true), h) == PhrasesOf(rows, h)
  {
    var r := Keep(rows, g, "", true);
    if PhrasesOf(r, g) != [] {
      assert PhrasesOf(r, g)[0] in PhrasesOf(r, g);
    }
    KeepCount(rows, g);
    if h != g {
      KeepOtherGuild(rows, g, "", true, h);
    }
  }

  lemma {:induction false} KeepOtherGuild(rows: seq<PhraseRow>, g: string, p: string, wholeGuild: bool, h: string)
    requires h != g
    ensures PhrasesOf(Keep(rows, g, p, wholeGuild), h) == PhrasesOf(rows, h)
    decreases |rows|
  {
    if rows != [] {
      KeepOtherGuild(rows[1..], g, p, wholeGuild, h);
      var x := rows[0];
      var head := if x.guildId == g && (wholeGuild || x.phrase == p) then [] else [x];
      PhrasesOfAppend(head, Keep(rows[1..], g, p, wholeGuild), h);
    }
  }

  lemma {:induction false} KeepShrinks(rows: seq<PhraseRow>, g: string, p: string, wholeGuild: bool)
    ensures |Keep(rows, g, p, wholeGuild)| == |rows| <==> Keep(rows, g, p, wholeGuild) == rows
    ensures Keep(rows, g, p, wholeGuild) == rows <==>
            forall k :: 0 <= k < |rows| ==> !(rows[k].guildId == g && (wholeGuild || rows[k].phrase == p))
    decreases |rows|
  {
    if rows != [] {
      KeepShrinks(rows[1..], g, p, wholeGuild);
      assert forall k :: 1 <= k < |rows| ==> rows[k] == rows[1..][k - 1];
    }
  }

  lemma {:induction false} KeepCount(rows: seq<PhraseRow>, g: string)
    ensures |rows| - |Keep(rows, g, "", true)| == |PhrasesOf(rows, g)|
    decreases |rows|
  {
    if rows != [] {
      KeepCount(rows[1..], g);
    }
  }

  /** Lookups are per (reddit id, guild): a row recorded for another guild
      makes the id taken without making it notified for `g`. */
  lemma CrossGuildRow(posts: seq<PostRow>, redditId: string, g: string, h: string)
    requires UniqueRedditIds(posts)
    requires g != h && Notified(posts, redditId, h)
    ensures HasRedditId(posts, redditId)
    ensures !Notified(posts, redditId, g)
  {
  }

  /** Old-post cleanup keeps the ids of the surviving rows unique. */
  lemma {:induction false} CleanKeepsUnique(posts: seq<PostRow>, cutoff: int)
    requires UniqueRedditIds(posts)
    ensures UniqueRedditIds(Recent(posts, cutoff))
    decreases |posts|
  {
    if posts != [] {
      CleanKeepsUnique(posts[1..], cutoff);
      var rest := Recent(posts[1..], cutoff);
      forall k | 0 <= k < |rest| ensures rest[k].redditId != posts[0].redditId {
        assert rest[k] in posts[1..];
      }
    }
  }

  /* ---------------------------------------------------------------------- */
  /* The database                                                            */

  class Database {
    /** `guilds`, keyed by `guild_id`. */
    var guilds: map<string, GuildRow>
    /** `phrases`, in insertion order. */
    var phrases: seq<PhraseRow>
    /** `posts`, in insertion order. */
    var posts: seq<PostRow>

    ghost predicate Valid()
      reads this
    {
      UniqueRedditIds(posts)
    }

    constructor ()
      ensures Valid() && guilds == map[] && phrases == [] && posts == []
    {
      guilds := map[];
      phrases := [];
      posts := [];
    }

    /** `addPhrases`: replace the guild row, then insert one phrase row per
        entry (`INSERT OR IGNORE` never ignores, since nothing is unique). */
    method AddPhrases(g: string, channelId: string, newPhrases: seq<string>, postAge: string)
      requires Valid()
      modifies this
      ensures Valid()
      ensures guilds == old(guilds)[g := GuildRow(channelId, postAge)]
      ensures phrases == old(phrases) + RowsFor(g, newPhrases)
      ensures posts == old(posts)
    {
      guilds := guilds[g := GuildRow(channelId, postAge)];
      var i := 0;
      while i < |newPhrases|
        invariant 0 <= i <= |newPhrases|
        invariant guilds == old(guilds)[g := GuildRow(channelId, postAge)] && posts == old(posts)
        invariant phrases == old(phrases) + RowsFor(g, newPhrases[..i])
      {
        assert RowsFor(g, newPhrases[..i + 1]) == RowsFor(g, newPhrases[..i]) + [PhraseRow(g, newPhrases[i])];
        phrases := phrases + [PhraseRow(g, newPhrases[i])];
        i := i + 1;
      }
      assert newPhrases[..i] == newPhrases;
    }

    /** `getGuildPhrases`. */
    method GetGuildPhrases(g: string) returns (r: seq<string>)
      ensures r == PhrasesOf(phrases, g)
    {
      r := PhrasesOf(phrases, g);
    }

    /** `removePhraseFromGuild`: delete every (g, phrase) row; true iff one
        was deleted. */
    method RemovePhraseFromGuild(g: string, phrase: string) returns (removed: bool)
      requires Valid()
      modifies this
      ensures Valid()
      ensures phrases == Keep(old(phrases), g, phrase, false)
      ensures removed <==> phrase in PhrasesOf(old(phrases), g)
      ensures guilds == old(guilds) && posts == old(posts)
    {
      var before := |phrases|;
      phrases := Keep(phrases, g, phrase, false);
      RemovedPhraseGone(old(phrases), g, phrase, phrase, g);
      removed := |phrases| < before;
    }

    /** `updateGuildSettings`: set the channel and the age when they are
        given (an empty string stands for a missing or empty value); true iff
        a guild row matched. */
    method UpdateGuildSettings(g: string, channelId: string, postAge: string) returns (matched: bool)
      modifies this
      ensures matched <==> g in old(guilds)
      ensures phrases == old(phrases) && posts == old(posts)
      ensures guilds.Keys == old(guilds).Keys
      ensures forall h :: h in guilds && h != g ==> guilds[h] == old(guilds)[h]
      ensures g in guilds ==>
                guilds[g].channelId == (if channelId != "" then channelId else old(guilds)[g].channelId) &&
                guilds[g].postAge == (if postAge != "" then postAge else old(guilds)[g].postAge)
    {
      var updates: seq<Column> := [];
      var values: seq<string> := [];
      if channelId != "" {
        updates := updates + [ChannelIdColumn];
        values := values + [channelId];
      }
      if postAge != "" {
        updates := updates + [PostAgeColumn];
        values := values + [postAge];
      }
      assert updates == (if channelId != "" then [ChannelIdColumn] else []) + (if postAge != "" then [PostAgeColumn] else []);
      assert values == (if channelId != "" then [channelId] else []) + (if postAge != "" then [postAge] else []);
      matched := g in guilds;
      if matched {
        SettingsUpdate(guilds[g], channelId, postAge, updates, values);
        guilds := guilds[g := ApplyUpdates(guilds[g], updates, values)];
      }
    }

    /** `isPostNotified`. */
    method IsPostNotified(redditId: string, g: string) returns (b: bool)
      ensures b == Notified(posts, redditId, g)
    {
      b := Notified(posts, redditId, g);
    }

    /** `markPostAsNotified`: the INSERT fails, changing nothing, whenever
        any row already has the reddit id, whatever its guild. */
    method MarkPostAsNotified(redditId: string, g: string, phrase: string, title: string,
                              url: string, subreddit: string, now: int) returns (ok: bool)
      requires Valid()
      modifies this
      ensures Valid()
      ensures ok <==> !HasRedditId(old(posts), redditId)
      ensures ok ==> posts == old(posts) + [PostRow(redditId, g, phrase, title, url, subreddit, now)]
      ensures !ok ==> posts == old(posts)
      ensures guilds == old(guilds) && phrases == old(phrases)
    {
      if HasRedditId(posts, redditId) {
        return false;
      }
      posts := posts + [PostRow(redditId, g, phrase, title, url, subreddit, now)];
      ok := true;
    }

    /** `cleanOldPosts`: delete the rows created before `cutoff` (one month
        before now) and return how many went. */
    method CleanOldPosts(cutoff: int) returns (count: nat)
      requires Valid()
      modifies this
      ensures Valid()
      ensures posts == Recent(old(posts), cutoff)
      ensures count == |old(posts)| - |posts|
      ensures guilds == old(guilds) && phrases == old(phrases)
    {
      var before := |posts|;
      CleanKeepsUnique(posts, cutoff);
      posts := Recent(posts, cutoff);
      count := before - |posts|;
    }

    /** `clearAllPhrases`: delete every phrase row of `g`, returning the count. */
    method ClearAllPhrases(g: string) returns (count: nat)
      requires Valid()
      modifies this
      ensures Valid()
      ensures phrases == Keep(old(phrases), g, "", true)
      ensures count == |PhrasesOf(old(phrases), g)|
      ensures guilds == old(guilds) && posts == old(posts)
    {
      var before := |phrases|;
      ClearedGuildEmpty(phrases, g, g);
      phrases := Keep(phrases, g, "", true);
      count := before - |phrases|;
    }
  }
}
