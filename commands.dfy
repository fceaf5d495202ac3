/** The slash commands that write phrases: `setupReddit` in
    commands/setupReddit.js and `addPhrase` in commands/addPhrase.js. Both
    read a comma-separated phrase list the same way; the embeds they reply
    with are reduced to which reply it is and what it lists. */
module Commands {
  import opened Wrappers
  import opened Text
  import opened TimeRange
  import opened Store
  import opened Seqs

  /* ---------------------------------------------------------------------- */
  /* The phrase-list parser                                                  */

  /** Non-empty with no whitespace at either end, as `trim` leaves a string. */
  predicate Trimmed(p: string) {
    p != [] && !IsWs(p[0]) && !IsWs(p[|p| - 1])
  }

  /** A phrase as the parser leaves it: trimmed and without a comma. */
  predicate CleanPhrase(p: string) {
    Trimmed(p) && ',' !in p
  }

  /** `Trim` keeps only characters of its input. */
  lemma TrimAvoids(s: string, c: char)
    requires c !in s
    ensures c !in Trim(s)
  {
    TrimIsSlice(s);
  }

  /** `.map(phrase => phrase.trim()).filter(phrase => phrase.length > 0)`. */
  function TrimNonEmpty(pieces: seq<string>): (r: seq<string>)
    ensures |r| <= |pieces|
    ensures forall k :: 0 <= k < |r| ==> Trimmed(r[k])
  {
    if pieces == [] then []
    else
      var t := Trim(pieces[0]);
      (if t == [] then [] else [t]) + TrimNonEmpty(pieces[1..])
  }

  /** A character in none of the pieces is in none of the trimmed phrases. */
  lemma {:induction false} TrimNonEmptyAvoids(pieces: seq<string>, c: char)
    requires forall k :: 0 <= k < |pieces| ==> c !in pieces[k]
    ensures forall k :: 0 <= k < |TrimNonEmpty(pieces)| ==> c !in TrimNonEmpty(pieces)[k]
    decreases |pieces|
  {
    if pieces != [] {
      var t := Trim(pieces[0]);
      var rest := TrimNonEmpty(pieces[1..]);
      TrimNonEmptyAvoids(pieces[1..], c);
      TrimAvoids(pieces[0], c);
      var head := if t == [] then [] else [t];
      AvoidsAppend(head, rest, c);
    }
  }

  lemma AvoidsAppend(a: seq<string>, b: seq<string>, c: char)
    requires forall k :: 0 <= k < |a| ==> c !in a[k]
    requires forall k :: 0 <= k < |b| ==> c !in b[k]
    ensures forall k :: 0 <= k < |a + b| ==> c !in (a + b)[k]
  {
  }

  /** `phrases.split(',').map(phrase => phrase.trim()).filter(phrase =>
      phrase.length > 0)`. */
  function ParsePhrases(s: string): (r: seq<string>)
    ensures forall k :: 0 <= k < |r| ==> CleanPhrase(r[k])
  {
    TrimNonEmptyAvoids(SplitOn(s, ','), ',');
    TrimNonEmpty(SplitOn(s, ','))
  }

  /** Trimming and dropping empties distributes over concatenation. */
  lemma {:induction false} TrimNonEmptyAppend(a: seq<string>, b: seq<string>)
    ensures TrimNonEmpty(a + b) == TrimNonEmpty(a) + TrimNonEmpty(b)
    decreases |a|
  {
    if a == [] {
      assert a + b == b;
    } else {
      var h, t := a[0], a[1..];
      HeadSplit(a, b);
      TrimNonEmptyAppend(t, b);
      TrimNonEmptyCons(h, t + b);
      TrimNonEmptyCons(h, t);
      Reassociate(if Trim(h) == [] then [] else [Trim(h)], TrimNonEmpty(t), TrimNonEmpty(b),
                  TrimNonEmpty(a + b), TrimNonEmpty(a));
    }
  }

  /** A separator splits the text into what is before it and what is after it. */
  lemma {:induction false} SplitOnAppend(a: string, b: string, sep: char)
    ensures SplitOn(a + [sep] + b, sep) == SplitOn(a, sep) + SplitOn(b, sep)
    decreases |a|
  {
    var i := FirstOccurrence(a, [sep]);
    NoSepBeforeFirst(a, sep);
    if i == -1 {
      SplitOnCons(a, b, sep);
      SplitOnNoSep(a, sep);
    } else {
      var a1 := a[..i];
      var a2 := a[i + 1..];
      OccursChar(a, sep, i);
      Regroup(a, i, b, sep);
      SplitOnCons(a1, a2 + [sep] + b, sep);
      SplitOnCons(a1, a2, sep);
      SplitOnAppend(a2, b, sep);
      ConsAppend(a1, SplitOn(a2, sep), SplitOn(b, sep), SplitOn(a + [sep] + b, sep), SplitOn(a, sep),
                 SplitOn(a2 + [sep] + b, sep));
    }
  }

  lemma Regroup(a: string, i: nat, b: string, sep: char)
    requires i < |a| && a[i] == sep
    ensures a == a[..i] + [sep] + a[i + 1..]
    ensures a + [sep] + b == a[..i] + [sep] + (a[i + 1..] + [sep] + b)
  {
    SplitAround(a, i);
  }

  lemma ConsAppend(h: string, l: seq<string>, m: seq<string>, whole: seq<string>, front: seq<string>, mid: seq<string>)
    requires whole == [h] + mid && mid == l + m && front == [h] + l
    ensures whole == front + m
  {
  }

  /** Phrases keep their input order: the phrases of `a,b` are those of `a`
      followed by those of `b`. */
  lemma ParseConcat(a: string, b: string)
    ensures ParsePhrases(a + "," + b) == ParsePhrases(a) + ParsePhrases(b)
  {
    SplitOnAppend(a, b, ',');
    TrimNonEmptyAppend(SplitOn(a, ','), SplitOn(b, ','));
  }

  /** Nothing but whitespace and commas. */
  predicate Blank(s: string) {
    forall k :: 0 <= k < |s| ==> IsWs(s[k]) || s[k] == ','
  }

  lemma BlankConcat(a: string, b: string)
    ensures Blank(a + "," + b) <==> Blank(a) && Blank(b)
  {
    var s := a + "," + b;
    assert forall k :: 0 <= k < |a| ==> s[k] == a[k];
    assert forall k :: 0 <= k < |b| ==> s[|a| + 1 + k] == b[k];
  }

  /** The parse is empty exactly when the text holds nothing but whitespace
      and commas. */
  lemma {:induction false} EmptyParse(s: string)
    ensures ParsePhrases(s) == [] <==> Blank(s)
    decreases |s|
  {
    if ',' in s {
      var k :| 0 <= k < |s| && s[k] == ',';
      var a, b := s[..k], s[k + 1..];
      assert s == a + "," + b;
      ParseConcat(a, b);
      EmptyParse(a);
      EmptyParse(b);
      BlankConcat(a, b);
    } else {
      SplitOnNoSep(s, ',');
      assert ParsePhrases(s) == (if Trim(s) == [] then [] else [Trim(s)]) + TrimNonEmpty([]);
    }
  }

  /** The trimmed phrases after the first, each with `pad` in front, come back
      unchanged. */
  lemma {:induction false} TrimNonEmptyPrefixed(ps: seq<string>, pad: string)
    requires pad == "" || pad == " "
    requires forall k :: 0 <= k < |ps| ==> Trimmed(ps[k])
    ensures TrimNonEmpty(Prefixed(ps, pad)) == ps
    decreases |ps|
  {
    if ps != [] {
      var rest := Prefixed(ps[1..], pad);
      TrimNonEmptyPrefixed(ps[1..], pad);
      TrimPadded(ps[0], pad);
      TrimNonEmptyCons(pad + ps[0], rest);
      ConsBack(ps[0], TrimNonEmpty(Prefixed(ps, pad)), TrimNonEmpty(rest), ps);
    }
  }

  /** A trimmed phrase with at most a space in front trims back to itself. */
  lemma TrimPadded(p: string, pad: string)
    requires pad == "" || pad == " "
    requires Trimmed(p)
    ensures Trim(pad + p) == p
  {
    TrimLeadingSpace(p);
    if pad == "" {
      assert pad + p == p;
    }
  }

  /** One step of `TrimNonEmpty`. */
  lemma TrimNonEmptyCons(x: string, ys: seq<string>)
    ensures TrimNonEmpty([x] + ys) == (if Trim(x) == [] then [] else [Trim(x)]) + TrimNonEmpty(ys)
  {
    assert ([x] + ys)[1..] == ys;
  }

  lemma ConsBack(h: string, whole: seq<string>, rest: seq<string>, ps: seq<string>)
    requires ps != [] && h == ps[0] && rest == ps[1..] && whole == [h] + rest
    ensures whole == ps
  {
  }

  /** Parsing phrases written out as `a, b, c` (or `a,b,c`) gives them back:
      every list the parser can produce survives a print-and-parse. */
  lemma ParseJoin(ps: seq<string>, pad: string)
    requires pad == "" || pad == " "
    requires forall k :: 0 <= k < |ps| ==> CleanPhrase(ps[k])
    ensures ParsePhrases(Join(ps, [','] + pad)) == ps
  {
    if ps != [] {
      var pieces := SplitOn(Join(ps, [','] + pad), ',');
      JoinSplitsBack(ps, pad);
      TrimmedTail(ps);
      PiecesBack(ps[0], ps[1..], pad);
      assert TrimNonEmpty(pieces) == [ps[0]] + ps[1..];
      ConsBack(ps[0], TrimNonEmpty(pieces), ps[1..], ps);
    }
  }

  lemma JoinSplitsBack(ps: seq<string>, pad: string)
    requires ps != [] && (pad == "" || pad == " ")
    requires forall k :: 0 <= k < |ps| ==> CleanPhrase(ps[k])
    ensures SplitOn(Join(ps, [','] + pad), ',') == [ps[0]] + Prefixed(ps[1..], pad)
  {
    assert forall k :: 0 <= k < |ps| ==> ',' !in ps[k];
    SplitOnJoin(ps, ',', pad);
  }

  lemma TrimmedTail(ps: seq<string>)
    requires ps != []
    requires forall k :: 0 <= k < |ps| ==> CleanPhrase(ps[k])
    ensures Trimmed(ps[0]) && forall k :: 0 <= k < |ps[1..]| ==> Trimmed(ps[1..][k])
  {
  }

  /** The pieces of a joined list trim back to the list. */
  lemma PiecesBack(p: string, qs: seq<string>, pad: string)
    requires pad == "" || pad == " "
    requires Trimmed(p)
    requires forall k :: 0 <= k < |qs| ==> Trimmed(qs[k])
    ensures TrimNonEmpty([p] + Prefixed(qs, pad)) == [p] + qs
  {
    TrimNonEmptyPrefixed(qs, pad);
    TrimLeadingSpace(p);
    var pieces := [p] + Prefixed(qs, pad);
    assert pieces[1..] == Prefixed(qs, pad);
  }

  /** Parsing is idempotent on its own output. */
  lemma ParseIdempotent(s: string)
    ensures ParsePhrases(Join(ParsePhrases(s), ", ")) == ParsePhrases(s)
  {
    assert ", " == [','] + " ";
    ParseJoin(ParsePhrases(s), " ");
  }

  /* ---------------------------------------------------------------------- */
  /* `ageDisplayNames`                                                       */

  /** The label shown for a post age, `undefined` for any other string. */
  function AgeDisplayName(age: string): (r: Option<string>)
    ensures r.Some? <==> IsKnownAge(age)
  {
    match age
    case "hour" => Some("Within one hour")
    case "day" => Some("Within one day")
    case "yesterday" => Some("Yesterday")
    case "week" => Some("This week")
    case "month" => Some("This month")
    case _ => None
  }

  /** Different ages get different labels. */
  lemma AgeDisplayNamesDistinct(a: string, b: string)
    requires IsKnownAge(a) && IsKnownAge(b) && a != b
    ensures AgeDisplayName(a) != AgeDisplayName(b)
  {
  }

  /* ---------------------------------------------------------------------- */
  /* The commands                                                            */

  datatype SetupReply = SetupNoPhrases | SetupDone(phrases: seq<string>, ageLabel: Option<string>, channelId: string)

  datatype AddReply = NotSetUp | AddNoPhrases | AddDone(added: seq<string>, all: seq<string>, channelId: string, postAge: string)

  /** `setupReddit`: parse the list; an empty list is refused before the
      tables are touched; otherwise the guild's settings are replaced and
      every phrase is appended. */
  method SetupReddit(db: Database, g: string, text: string, age: string, channelId: string)
    returns (reply: SetupReply)
    requires db.Valid()
    modifies db
    ensures db.Valid()
    ensures reply == SetupNoPhrases <==> ParsePhrases(text) == []
    ensures reply == SetupNoPhrases ==>
              db.guilds == old(db.guilds) && db.phrases == old(db.phrases) && db.posts == old(db.posts)
    ensures reply != SetupNoPhrases ==>
              reply == SetupDone(ParsePhrases(text), AgeDisplayName(age), channelId) &&
              db.guilds == old(db.guilds)[g := GuildRow(channelId, age)] &&
              db.phrases == old(db.phrases) + RowsFor(g, ParsePhrases(text)) &&
              db.posts == old(db.posts)
  {
    var phraseList := ParsePhrases(text);
    if phraseList == [] {
      return SetupNoPhrases;
    }
    db.AddPhrases(g, channelId, phraseList, age);
    reply := SetupDone(phraseList, AgeDisplayName(age), channelId);
  }

  /** `addPhrase`: a guild without a settings row is refused; an empty list
      is refused; otherwise the phrases are appended under the stored
      channel and age, which therefore stay as they were. */
  method AddPhrase(db: Database, g: string, text: string) returns (reply: AddReply)
    requires db.Valid()
    modifies db
    ensures db.Valid()
    ensures reply == NotSetUp <==> g !in old(db.guilds)
    ensures reply == AddNoPhrases <==> g in old(db.guilds) && ParsePhrases(text) == []
    ensures db.guilds == old(db.guilds) && db.posts == old(db.posts)
    ensures !reply.AddDone? ==> db.phrases == old(db.phrases)
    ensures reply.AddDone? ==>
              db.phrases == old(db.phrases) + RowsFor(g, ParsePhrases(text)) &&
              reply == AddDone(ParsePhrases(text), PhrasesOf(old(db.phrases), g) + ParsePhrases(text),
                               old(db.guilds)[g].channelId, old(db.guilds)[g].postAge)
  {
    if g !in db.guilds {
      return NotSetUp;
    }
    var settings := db.guilds[g];
    var phraseList := ParsePhrases(text);
    if phraseList == [] {
      return AddNoPhrases;
    }
    db.AddPhrases(g, settings.channelId, phraseList, settings.postAge);
    assert db.guilds == old(db.guilds);
    var all := db.GetGuildPhrases(g);
    AddedPhrasesAppear(old(db.phrases), g, phraseList, g);
    reply := AddDone(phraseList, all, settings.channelId, settings.postAge);
  }
}
