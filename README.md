# Reddit lead monitor, modelled in Dafny

This project models the core of a Discord bot that watches Reddit for posts that match a server's phrases. Every five minutes a guild's *tick*:

1. looks the guild up and loads its phrases and settings;
2. runs a cascade of searches for each phrase: the main search page, old.reddit, five popular subreddits, then the JSON API;
3. extracts posts from the rendered page;
4. keeps the posts whose title matches the phrase;
5. drops posts outside the guild's age window and posts the guild was already sent;
6. sends each remaining post to the guild's channel, records it in the `posts` table and optionally appends it to a Google Sheet.

The slash commands `/setupreddit` and `/addphrase` parse a comma-separated phrase list into the `phrases` table.

Modules and files:

| file | module | models |
|---|---|---|
| `wrappers.dfy` | `Wrappers` | the `Option` type, for JavaScript's `null`/`undefined` results |
| `seqs.dfy` | `Seqs` | generic sequence lemmas the list proofs use (head and tail, regrouping, cutting, sub-multisets) |
| `text.dfy` | `Text` | the JavaScript string operations used, over ASCII: `toLowerCase`, `\s`, `split(/\s+/)`, `replace(/\s+/g, ' ')`, `trim`, `split(',')`, `includes`, `indexOf`, number to string |
| `posts.dfy` | `Posts` | the post record |
| `matcher.dfy` | `KeywordMatch` | `postContainsKeyword`, `filterPostsByKeyword` |
| `time_range.dfy` | `TimeRange` | `isPostInTimeRange`, `TIME_FILTERS` |
| `extraction.dfy` | `Extraction` | `extractPostsFromPage`: strategy choice, the 25-element cap, title and URL checks, ids, comment counts |
| `search.dfy` | `Search` | the `searchReddit` cascade |
| `registry.dfy` | `Monitoring` | `monitoringStatus` with `startMonitoring`, `stopMonitoring`, `startMonitoringForAllGuilds` |
| `database.dfy` | `Store` | the three tables and each statement of services/database.js |
| `sheets.dfy` | `Sheets` | `GoogleSheetsService`: row layout, decoding, status range, headers, the `initialized` guard |
| `tick.dfy` | `Tick` | `monitorGuild` |
| `commands.dfy` | `Commands` | `setupReddit`, `addPhrase`, the phrase parser, `ageDisplayNames` |

Stateful parts are classes:

- the registry (`Monitoring.Registry`);
- the database (`Store.Database`);
- the sheet service (`Sheets.SheetsService`).

Their methods are proved against pure functions of the old state. The tick (`Tick.MonitorGuild`) is a method with the source's two nested loops. It is proved equal to a pure fold, `Tick.Run`, over the candidate (phrase, post) pairs, and the properties of a tick are lemmas about that fold.

Where the code and its documentation differ, the model follows the code:

- A one-word keyword is matched as a substring of the title, so "hire" matches "hired". The test at services/redditMonitor.js:441 runs before the whole-word test.
- `posts.reddit_id` is UNIQUE across the whole table, but the "already sent" lookup is per guild. A post that one guild has recorded is therefore never "sent" for any other guild. Each other guild is sent it again on every tick, and recording it fails every time. See `Tick.ForeignPostResent` and `Store.CrossGuildRow`.
- `INSERT OR IGNORE` into `phrases` never ignores, because that table has no uniqueness besides its id. Duplicate phrases are stored twice.

## Model

| member | source | states |
|---|---|---|
| Text.Lower | services/redditMonitor.js:437-438 | lower-casing keeps the length, maps each character by the ASCII case map, and leaves no upper-case letter |
| Text.Trim | commands/setupReddit.js:13 | the result has no whitespace at either end, and it is empty exactly when the input is all whitespace |
| Text.TrimCollapse | services/redditMonitor.js:385 | a collapsed and trimmed title uses only single spaces as whitespace, and it is empty exactly when the raw title is all whitespace |
| Text.SplitOn | commands/setupReddit.js:13 | `split(',')` gives at least one piece, and no piece contains the separator |
| Text.SplitOnJoin | commands/setupReddit.js:13 | splitting separator-free pieces joined by the separator and a pad gives the pieces back, each after the first with its pad |
| Text.FirstOccurrence | services/redditMonitor.js:389 | the result is -1 exactly when the pattern does not occur; otherwise the pattern occurs there and at no earlier index |
| KeywordMatch.PostContainsKeyword | services/redditMonitor.js:433-483 | the method, including its run-scanning loop, returns exactly the matcher predicate `ContainsKeyword` |
| KeywordMatch.ScanWordRuns | services/redditMonitor.js:463-477 | the outer scan over start positions finds a match iff the keyword words occur as a contiguous run of title words |
| KeywordMatch.WordsMatchAt | services/redditMonitor.js:465-471 | the inner comparison keeps `match` true iff every keyword word equals the title word at its offset from position i |
| KeywordMatch.MatchCharacterisation | services/redditMonitor.js:433-483 | a match holds iff keyword and title are non-empty and either the lower-cased keyword occurs in the lower-cased title, or the keyword has several words and its collapsed form occurs in the collapsed title or its words form a contiguous run of title words; the whole-word test adds nothing |
| KeywordMatch.OneWordMatchesInsideWord | services/redditMonitor.js:441-443 | the one-word keyword "hire" matches the title "We hired a dev" |
| KeywordMatch.ReorderedWordsNeverMatch | services/redditMonitor.js:461-477 | for two distinct lower-case words, the title "b a" never matches the keyword "a b" |
| KeywordMatch.FilterPostsByKeyword | services/redditMonitor.js:486-514 | the push loop builds exactly `FilterByKeyword`: the input when the keyword is empty, otherwise the matching posts in order |
| KeywordMatch.FilterKeepsExactlyMatches | services/redditMonitor.js:492-501 | with a keyword, a post is in the filtered list iff it is in the input and its title matches |
| KeywordMatch.FilterIsSublist | services/redditMonitor.js:486-514 | the filtered list is no longer than the input and holds no post more often than the input does; it is the input itself when every post matches |
| KeywordMatch.FilterIdempotent | services/redditMonitor.js:486-514 | filtering twice is filtering once |
| TimeRange.SearchWindow | services/redditMonitor.js:14-20 | `TIME_FILTERS[age] \|\| 'day'` is one of hour, day, week and month; it is the age itself for the four known windows, and "day" for "yesterday" and for any unknown age |
| TimeRange.Thresholds | services/redditMonitor.js:410-430 | with d = now - created: hour iff d <= 3600; day iff d <= 86400; yesterday iff 86400 < d <= 172800; week iff d <= 604800; month iff d <= 2592000 |
| TimeRange.UnknownFilterIsDay | services/redditMonitor.js:427-428 | an unknown filter behaves exactly like "day" |
| TimeRange.WindowsNested | services/redditMonitor.js:410-430 | hour implies day, day implies week, and week implies month; yesterday implies week and excludes day |
| TimeRange.FreshPostPasses | services/redditMonitor.js:410-430 | a post created now passes every filter except "yesterday" |
| TimeRange.DayBoundary | services/redditMonitor.js:418-422 | a post exactly one day old is in "day" and not in "yesterday"; one second older, it is the other way round |
| Extraction.SelectStrategy | services/redditMonitor.js:232-322 | the chosen list is empty iff every strategy found nothing; otherwise it is the first non-empty strategy's list |
| Extraction.CommentCount | services/redditMonitor.js:371-380 | the comment count is a non-empty digit string, and it is "0" when the text has no `digits, spaces, "comment"` match |
| Extraction.CommentCountIsCapture | services/redditMonitor.js:371-377 | when the leftmost match of `(\d+)\s*comment` starts at a digit run followed by whitespace and "comment", the count is exactly that digit run |
| Extraction.PostId | services/redditMonitor.js:389 | the id is non-empty and has no '/'; without "/comments/" in the URL it is `post_<index>` |
| Extraction.PostIdIsCommentsSegment | services/redditMonitor.js:389 | for a URL whose first "/comments/" is followed by a '/'-free segment and then '/' or the end, the id is that segment |
| Extraction.ExtractPostsFromPage | services/redditMonitor.js:211-407 | the `forEach` loop returns `ExtractPosts`: the accepted posts among the first 25 elements of the first productive strategy, in order |
| Extraction.ElementToPostAccepts | services/redditMonitor.js:382-398 | an element becomes a post iff its title and URL are non-empty and the raw title is shorter than 500; the post is then well formed (trimmed, single-spaced title, id without '/', digit comment count, created = now) and keeps the element's URL |
| Extraction.PostsOfWellFormed | services/redditMonitor.js:324-402 | every post made from an element list is well formed, and there are no more posts than elements |
| Extraction.ExtractedPostsWellFormed | services/redditMonitor.js:211-407 | a page yields at most 25 posts, all well formed, none when every strategy is empty, and those of the first strategy when it is non-empty |
| Extraction.ElementsPastCapIgnored | services/redditMonitor.js:327 | elements after index 24 never change the result |
| Search.MapChildren | services/redditMonitor.js:172-186 | the map succeeds iff every child has both counts; then post k is child k's mapping (its id, title, `https://www.reddit.com` + permalink, subreddit, author, counts as strings and `created_utc`) |
| Search.SubredditPhase | services/redditMonitor.js:125-146 | the subreddits tried are a prefix of the list, in order |
| Search.SearchSubreddits | services/redditMonitor.js:126-146 | the subreddit loop returns what `SubredditPhase` describes: the posts of the first subreddit whose page is non-empty, stopping at the first throw, with the subreddits tried |
| Search.SubredditHitAt | services/redditMonitor.js:128-142 | when subreddits 0..k-1 load empty and subreddit k shows posts, approach 3 returns those raw posts after trying exactly subreddits 0..k |
| Search.PhaseAfterEmpty | services/redditMonitor.js:128-142 | subreddit pages that load but show nothing are passed over: after k of them the phase continues from name k and reports those k as tried, in order |
| Search.SubredditTriedEmpty | services/redditMonitor.js:128-142 | every subreddit tried before the last showed no posts; a hit is the non-empty raw result of the last one tried; with no hit none showed posts |
| Search.SearchReddit | services/redditMonitor.js:23-208 | the cascade returns `SearchResult`: posts and the list of approaches attempted |
| Search.ExtractedLoadsRendered | services/redditMonitor.js:94-135 | pages whose posts come from `extractPostsFromPage` satisfy the rendered-page bound: at most 25 well-formed posts |
| Search.SubredditHitIsPage | services/redditMonitor.js:135-141 | a subreddit hit is the non-empty extracted list of one of the listed subreddits |
| Search.FirstHitWins | services/redditMonitor.js:94-100 | when the main search extracts posts, nothing else is tried and the result is their filtered list, empty if none match |
| Search.MainFailureFallsBack | services/redditMonitor.js:102-122 | when the main search yields nothing, old.reddit is tried next |
| Search.SubredditThrowStops | services/redditMonitor.js:126-146 | a throw at subreddit k ends the subreddit phase with no hit, after trying exactly the first k+1 |
| Search.SubredditThrowAbandonsRest | services/redditMonitor.js:144-146 | after a throw inside approach 3 the remaining subreddits are never tried, and the JSON API comes next |
| Search.AttemptsFollowCascade | services/redditMonitor.js:37-198 | the attempts are a prefix of main, old.reddit, the five subreddits in listed order, JSON API, or such a prefix cut short by a subreddit throw and followed by the JSON API |
| Search.DecideFollowsCascade | services/redditMonitor.js:37-198 | the cascade decision attempts approaches in cascade order, given any subreddit phase that is a prefix |
| Search.AllFailReturnsEmpty | services/redditMonitor.js:196-202 | when every page is empty or throws and the JSON API has no children, the result is `[]` |
| Search.FilteredRaw | services/redditMonitor.js:94-192 | a running search returns the keyword-filtered raw result of the approach tried last, even when filtering empties it; every target tried before it showed no posts; a page tried last showed that (non-empty) raw result, and the JSON API tried last gave the mapped children or nothing |
| Search.SearchResultsMatch | services/redditMonitor.js:94-192 | every returned post matches the phrase; without the JSON API, at most 25 well-formed posts come back |
| Monitoring.StartEntry | services/redditMonitor.js:625-644 | start adds exactly the guild's entry when absent, changes nothing when present, and keeps every other entry |
| Monitoring.StopEntry | services/redditMonitor.js:657-660 | stop removes exactly the guild's key and keeps every other entry |
| Monitoring.StartStopRoundTrip | services/redditMonitor.js:621-672 | start then stop on an absent guild restores the map; stop is idempotent; start is idempotent |
| Monitoring.OtherGuildsUntouched | services/redditMonitor.js:621-672 | starting or stopping one guild never changes another guild's entry |
| Monitoring.Registry.constructor | services/redditMonitor.js:8 | the registry starts empty with no running jobs |
| Monitoring.Registry.StartMonitoring | services/redditMonitor.js:621-651 | the reply is "already active" iff the guild has a job; otherwise one new job is started and registered; the invariant that the running jobs are exactly the registered ones is kept |
| Monitoring.Registry.StopMonitoring | services/redditMonitor.js:654-672 | the reply is "stopped" iff the guild had a job; that job stops running and leaves the map |
| Monitoring.Registry.StartMonitoringForAllGuilds | services/redditMonitor.js:675-687 | afterwards every listed guild has a job, guilds that had one keep it, and no other key appears |
| Store.PhrasesOf | services/database.js:114 | a phrase is listed for a guild iff a row (guild, phrase) exists, and the list is no longer than the table |
| Store.Keep | services/database.js:132 | a row survives a DELETE iff it was present and does not satisfy the condition |
| Store.Recent | services/database.js:258 | a post row survives the cleanup iff it was present and is not older than the cutoff |
| Store.SettingsUpdate | services/database.js:168-183 | applying the built column and value lists sets exactly the supplied non-empty fields |
| Store.PhrasesOfAppend | services/database.js:114 | the phrases of appended tables are the phrases of each, in order |
| Store.PhrasesOfRowsFor | services/database.js:90-93 | inserted rows contribute their phrases to their guild only |
| Store.AddedPhrasesAppear | services/database.js:90-114 | after `addPhrases` the guild's phrases are the old ones followed by the new ones; other guilds see no change |
| Store.DuplicatePhraseStoredTwice | services/database.js:36-42 | re-adding an existing phrase adds a second row |
| Store.RemovedPhraseGone | services/database.js:132-135 | after removal the phrase is gone, other phrases and guilds are unchanged, and rows were removed iff it was listed |
| Store.ClearedGuildEmpty | services/database.js:276-279 | clearing leaves the guild no phrases, removes as many rows as it had, and leaves other guilds unchanged |
| Store.KeepOtherGuild | services/database.js:132 | a phrase DELETE for one guild leaves every other guild's phrases as they were |
| Store.KeepShrinks | services/database.js:132-135 | a DELETE leaves the table the same length iff it removes nothing |
| Store.KeepCount | services/database.js:276-279 | clearing a guild removes exactly as many rows as it had phrases |
| Store.CrossGuildRow | services/database.js:203-226 | with unique ids, a post recorded for another guild has its id taken and is not notified for this guild |
| Store.CleanKeepsUnique | services/database.js:258 | the cleanup keeps the UNIQUE constraint |
| Store.Database.constructor | services/database.js:26-56 | the tables start empty |
| Store.Database.AddPhrases | services/database.js:76-103 | the guild row is replaced by (channel, age), one phrase row per input is appended, and posts are untouched |
| Store.Database.GetGuildPhrases | services/database.js:106-121 | returns the guild's phrases in table order |
| Store.Database.RemovePhraseFromGuild | services/database.js:124-139 | deletes every (guild, phrase) row and returns true iff the phrase was listed |
| Store.Database.UpdateGuildSettings | services/database.js:160-192 | returns true iff the guild has a row; only the supplied non-empty fields change; no other row changes |
| Store.Database.IsPostNotified | services/database.js:195-210 | true iff some posts row has both the id and the guild |
| Store.Database.MarkPostAsNotified | services/database.js:213-229 | succeeds iff no row of any guild has the id, and then appends exactly one row; otherwise nothing changes |
| Store.Database.CleanOldPosts | services/database.js:250-265 | keeps exactly the rows not older than the cutoff and returns how many went |
| Store.Database.ClearAllPhrases | services/database.js:268-283 | deletes all of the guild's phrase rows and returns how many there were |
| Sheets.Or | services/googleSheets.js:56-65 | `x \|\| d` is x when x is truthy, otherwise d |
| Sheets.EncodeRow | services/googleSheets.js:53-67 | the appended row has 11 cells, with status "New" in column I and empty notes in column J |
| Sheets.DecodeRow | services/googleSheets.js:134-147 | the record of the i-th data row has row number i+2 |
| Sheets.RecentPosts | services/googleSheets.js:131-147 | skips the header, returns min(limit, data rows) records, the i-th decoding row i+1 with row number i+2 |
| Sheets.WriteCells | services/googleSheets.js:96-108 | a range write puts the cells in place in one row and leaves every other cell and row as it was |
| Sheets.DecodeEncode | services/googleSheets.js:53-147 | decoding an encoded lead gives back its title, author, subreddit, URL and keyword, status "New" and notes "" |
| Sheets.AppendedRowIsRead | services/googleSheets.js:79-134 | a row appended after the header and earlier rows is read back as the last record |
| Sheets.HeadersAlignWithRows | services/googleSheets.js:164-180 | the header has 11 names, A..K, aligned with the row layout |
| Sheets.StatusRangeColumns | services/googleSheets.js:101 | the status range `I<row>:J<row>` names the Status and Notes columns |
| Sheets.StatusWriteIsRead | services/googleSheets.js:96-145 | after a status update of a listed record's row, reading it back gives the new status (an empty one reads as "New") and notes, and the record's other fields are unchanged |
| Sheets.SheetsService.constructor | services/googleSheets.js:6-10 | the service starts with no client and no sheet id, not initialized |
| Sheets.SheetsService.Initialize | services/googleSheets.js:12-44 | succeeds iff the credentials exist and parse and the sheet id is non-empty; `initialized` becomes true only then |
| Sheets.SheetsService.AddPostToSheet | services/googleSheets.js:46-86 | succeeds iff initialized and the call succeeds, and then appends exactly the encoded row |
| Sheets.SheetsService.UpdatePostStatus | services/googleSheets.js:88-115 | succeeds iff initialized, the call succeeds and the row is at least 1; writes status and notes to I:J of that row |
| Sheets.SheetsService.GetRecentPosts | services/googleSheets.js:117-154 | returns the recent records when initialized and the call succeeds, otherwise `[]` |
| Sheets.SheetsService.SetupSheet | services/googleSheets.js:156-194 | succeeds iff initialized and the call succeeds, and then writes the header into row 1 |
| Tick.RunAppend | services/redditMonitor.js:570-614 | visiting the candidates of one phrase after those of the earlier phrases is one fold over the joined list |
| Tick.RunGrows | services/redditMonitor.js:574-613 | a tick only appends to the table, the sheet and the sent list; the sheet gains no more rows than the table and the table no more than sends; new rows belong to the ticking guild with ids no row had; UNIQUE is kept |
| Tick.SentWereNew | services/redditMonitor.js:576-589 | every post sent is a candidate, passed the age filter, was sent successfully, and was not recorded for the guild when the tick began |
| Tick.RepeatsNeedForeignRow | services/redditMonitor.js:581-592 | within a tick, a post id is sent twice only if some row held it before the tick; every send is followed by a record for the guild or a foreign row |
| Tick.ForeignPostResent | services/database.js:203-226 | a post another guild has recorded is sent, not recorded, and sent again the next time it comes up |
| Tick.FreshPostSentOnce | services/redditMonitor.js:581-592 | a post no guild recorded is recorded by its first send and is skipped afterwards |
| Tick.CandidatesMatch | services/redditMonitor.js:570-574 | each candidate pairs one of the guild's phrases with a post its search returned, whose title matches the phrase |
| Tick.ProcessPost | services/redditMonitor.js:574-613 | one candidate changes the table, the sheet and the sent list exactly as `Step` says |
| Tick.ProcessPosts | services/redditMonitor.js:574-613 | the inner loop is the fold of `Step` over one phrase's posts |
| Tick.SearchPhrase | services/redditMonitor.js:570-613 | searching one phrase and processing its posts is the fold of `Step` over that phrase's search results |
| Tick.SearchPhrases | services/redditMonitor.js:570-614 | the loop over the guild's phrases is the fold of `Step` over all candidates, phrase by phrase |
| Tick.MonitorGuild | services/redditMonitor.js:536-618 | a missing guild or an empty phrase list stops monitoring; missing settings or channel return with the registry kept; otherwise the new table, sheet and sends are the fold over all candidates |
| Commands.ParsePhrases | commands/setupReddit.js:13 | every parsed phrase is non-empty, has no whitespace at either end and no comma |
| Commands.EmptyParse | commands/setupReddit.js:13-15 | the list is empty iff the text has nothing but whitespace and commas |
| Commands.ParseConcat | commands/addPhrase.js:20 | phrases keep input order: the phrases of `a,b` are those of `a` followed by those of `b` |
| Commands.ParseJoin | commands/setupReddit.js:13 | writing clean phrases as `a, b` or `a,b` and parsing gives them back |
| Commands.ParseIdempotent | commands/addPhrase.js:20 | parsing the printed parse gives the same list |
| Commands.AgeDisplayName | commands/setupReddit.js:26-32 | a label exists iff the age is hour, day, yesterday, week or month |
| Commands.AgeDisplayNamesDistinct | commands/setupReddit.js:26-32 | different ages have different labels |
| Commands.SetupReddit | commands/setupReddit.js:4-47 | an empty parse is refused with nothing stored; otherwise the settings are replaced and every phrase is appended |
| Commands.AddPhrase | commands/addPhrase.js:4-49 | refused with no change when the guild has no settings or the parse is empty; otherwise the phrases are appended, the stored channel and age stay, and the reply lists the old phrases followed by the new |

## Left out

- Puppeteer, the DOM and the network are not modelled. This covers browser launch, page loads and screenshots, CSS selector queries, `page.evaluate` and `fetch`. Each page's strategy lists and each element's title, link, subreddit, author, score and comment-link text are inputs. So is each approach's outcome, either a throw or the posts it extracted.
- Search URLs and `encodeURIComponent` are not modelled. An approach is a target value rather than a URL string.
- Login and "no results" page text are logged only and are not modelled.
- Cron schedules, `setTimeout` delays and the daily cleanup job are not modelled. A job is an opaque token with a serial number.
- Discord is reduced to inputs. Guild and channel lookups are outcomes. `channel.send` is a success flag per (phrase, post). Embeds and interaction replies are left out, apart from which reply a command gives.
- Clocks are parameters: `Date.now`, `CURRENT_TIMESTAMP`, the ISO timestamp written to the sheet, and the one-month cutoff of `cleanOldPosts`. `ORDER BY created_at` is insertion order.
- Unicode is not modelled. Case mapping, `\s`, `trim` and string length are taken over ASCII characters. Lengths count characters, not UTF-16 code units.
- Database errors are not modelled. Every SQL statement succeeds, except that `MarkPostAsNotified` fails on the UNIQUE `reddit_id`. In the source, a rejected `getGuildPhrases` or `getAllGuilds` (services/redditMonitor.js:544, 551) or a rejected `isPostNotified` (:580) falls to the outer `catch` (:615) and ends the whole tick. The model has no such path.
- The Google auth and HTTP plumbing and concurrent ticks are not modelled. A failed sheet call is a flag, `Env.sheetCallOk`. It is one flag for the whole tick, whereas in the source each `addPostToSheet` call can fail on its own. No lemma relies on it.
- The JSON field `created_utc` (`JsonChild.createdUtc` in search.dfy) is taken as an integer number of seconds. The API gives a float, which `isPostInTimeRange` (services/redditMonitor.js:412-413) subtracts directly, so a fractional creation time is not modelled.
- In the tick's environment (`Env` in tick.dfy), the search outcome `web` and the send outcome `sendOk` are functions of (phrase, search window) and of (phrase, post). A phrase stored twice (see `Store.DuplicatePhraseStoredTwice`) therefore gets the same search and send outcomes on both passes of one tick, whereas the source runs the search and the send again and may see different results.
- `getGuildSettings` and `getAllGuilds` are read as lookups in the guilds map. The source's `guildData.find` over all rows is the same lookup, because `guild_id` is the primary key.
- Tick.Step: the rate-limit pause after each send is dropped. A record that fails on the UNIQUE id rejects inside the per-post `try`, so the sheet append is skipped and the tick moves on. The model takes this branch directly.
- Extraction.ElementToPost: a missing title element is modelled as the empty string. This matches the source, where both are falsy.
- Sheets: when the Sheets API reads a row, it drops trailing empty cells. Absent cells are read as the source's defaults.
- Commands.SetupReddit: `ageDisplayNames[age]` is `undefined` for an age outside the five. The model returns `None` and does not follow discord.js into the error path the embed would take.
- The other commands are not modelled: help, listPhrases, removePhrase, clearPhrases, stopSearching, status, viewLeads, updateStatus and testSearch. They only format replies around the operations modelled here. The routing in index.js is not modelled either.
