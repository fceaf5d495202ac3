/** String primitives the bot relies on from JavaScript, over an ASCII model:
    `toLowerCase`, the regular-expression class `\s`, `split(/\s+/)`,
    `replace(/\s+/g, ' ')`, `trim`, `split(',')`, `includes`, `indexOf`
    and decimal `toString`. */
module Text {

  /** The ASCII members of the JavaScript `\s` class: space, tab, line feed,
      vertical tab, form feed and carriage return. */
  predicate IsWs(c: char) {
    c == ' ' || c == '\t' || c == '\n' || c == '\U{0B}' || c == '\U{0C}' || c == '\r'
  }

  predicate IsDigit(c: char) { '0' <= c <= '9' }

  predicate AllDigits(s: string) { forall k :: 0 <= k < |s| ==> IsDigit(s[k]) }

  predicate NoWs(s: string) { forall k :: 0 <= k < |s| ==> !IsWs(s[k]) }

  /** Nothing but whitespace (the empty string included). */
  predicate AllWs(s: string) { forall k :: 0 <= k < |s| ==> IsWs(s[k]) }

  predicate IsLowerAscii(s: string) { forall k :: 0 <= k < |s| ==> !('A' <= s[k] <= 'Z') }

  function LowerChar(c: char): char {
    if 'A' <= c <= 'Z' then (c as int + 32) as char else c
  }

  /** `toLowerCase` restricted to the ASCII case map. */
  function Lower(s: string): (r: string)
    ensures |r| == |s|
    ensures forall k :: 0 <= k < |s| ==> r[k] == LowerChar(s[k])
    ensures IsLowerAscii(r)
  {
    seq(|s|, k requires 0 <= k < |s| => LowerChar(s[k]))
  }

  lemma LowerOfLower(s: string)
    requires IsLowerAscii(s)
    ensures Lower(s) == s
  {
  }

  /* ---------------------------------------------------------------------- */
  /* Substrings                                                              */

  /** `sub` occurs in `s` starting at index `i`. */
  predicate OccursAt(s: string, sub: string, i: int) {
    0 <= i && i + |sub| <= |s| && s[i..i + |sub|] == sub
  }

  /** JavaScript `s.includes(sub)`. */
  predicate Contains(s: string, sub: string) {
    exists i :: 0 <= i <= |s| - |sub| && OccursAt(s, sub, i)
  }

  lemma ContainsAt(s: string, sub: string, i: int)
    requires OccursAt(s, sub, i)
    ensures Contains(s, sub)
  {
  }

  /** A string of the same length as `s` is contained in `s` only if it is `s`. */
  lemma {:induction false} SameLengthContains(s: string, sub: string)
    requires |s| == |sub| && Contains(s, sub)
    ensures s == sub
  {
    var i :| 0 <= i <= |s| - |sub| && OccursAt(s, sub, i);
    assert i == 0;
    assert s[0..|s|] == s;
  }

  /** JavaScript `s.indexOf(pat)` from position 0: the first occurrence. */
  function FirstOccurrence(s: string, pat: string): (r: int)
    decreases |s|
    ensures r == -1 <==> !Contains(s, pat)
    ensures r != -1 ==> OccursAt(s, pat, r) && forall j :: 0 <= j < r ==> !OccursAt(s, pat, j)
  {
    if |s| < |pat| then
      -1
    else if s[..|pat|] == pat then
      assert OccursAt(s, pat, 0);
      0
    else
      var k := FirstOccurrence(s[1..], pat);
      assert !OccursAt(s, pat, 0);
      OccursShift(s, pat);
      if k == -1 then
        assert forall j :: 1 <= j <= |s| - |pat| ==> !OccursAt(s, pat, j);
        -1
      else
        assert OccursAt(s, pat, k + 1);
        k + 1
  }

  /** Past the first character, `pat` occurs in `s` where it occurs in `s[1..]`, one further on. */
  lemma OccursShift(s: string, pat: string)
    requires s != []
    ensures forall j :: 1 <= j ==> (OccursAt(s, pat, j) <==> OccursAt(s[1..], pat, j - 1))
  {
    forall j | 1 <= j ensures OccursAt(s, pat, j) <==> OccursAt(s[1..], pat, j - 1) {
      if j + |pat| <= |s| {
        var a, b := s[j..j + |pat|], s[1..][j - 1..j - 1 + |pat|];
        assert |a| == |b| && forall k :: 0 <= k < |a| ==> a[k] == b[k];
      }
    }
  }

  /** JavaScript `s.replace(pat, rep)` with a string pattern: only the first
      occurrence is replaced. */
  function ReplaceFirst(s: string, pat: string, rep: string): (r: string)
    ensures !Contains(s, pat) ==> r == s
  {
    var i := FirstOccurrence(s, pat);
    if i == -1 then s else s[..i] + rep + s[i + |pat|..]
  }

  /* ---------------------------------------------------------------------- */
  /* Whitespace runs                                                         */

  /** Length of the longest prefix of `s` without whitespace. */
  function NonWsSpan(s: string): (n: nat)
    ensures n <= |s|
    ensures forall k :: 0 <= k < n ==> !IsWs(s[k])
    ensures n < |s| ==> IsWs(s[n])
  {
    if s == [] || IsWs(s[0]) then 0 else 1 + NonWsSpan(s[1..])
  }

  /** Length of the longest prefix of `s` made of whitespace. */
  function WsSpan(s: string): (n: nat)
    ensures n <= |s|
    ensures forall k :: 0 <= k < n ==> IsWs(s[k])
    ensures n < |s| ==> !IsWs(s[n])
    ensures s != [] && IsWs(s[0]) ==> n >= 1
  {
    if s == [] || !IsWs(s[0]) then 0 else 1 + WsSpan(s[1..])
  }

  /** JavaScript `s.split(/\s+/)`: the fields between maximal whitespace runs,
      keeping the empty field before a leading run and after a trailing one
      (so `""` splits to `[""]`). */
  function SplitWs(s: string): (r: seq<string>)
    decreases |s|
    ensures |r| >= 1
  {
    var n := NonWsSpan(s);
    if n == |s| then [s]
    else
      var m := WsSpan(s[n..]);
      [s[..n]] + SplitWs(s[n + m..])
  }

  /** Every field of `SplitWs(s)` is free of whitespace and occurs in `s`. */
  lemma {:induction false} SplitWsFields(s: string, w: string)
    requires w in SplitWs(s)
    ensures NoWs(w) && Contains(s, w)
    decreases |s|
  {
    var n := NonWsSpan(s);
    PrefixField(s, n);
    if n == |s| {
      assert s[..n] == s;
    } else {
      var rest := s[n + WsSpan(s[n..])..];
      InCons(w, s[..n], SplitWs(rest), SplitWs(s));
      if w != s[..n] {
        SplitWsFields(rest, w);
        ContainsInSuffix(s, n + WsSpan(s[n..]), w);
      }
    }
  }

  /** A whitespace-free prefix is a whitespace-free piece of `s`. */
  lemma PrefixField(s: string, n: nat)
    requires n <= |s| && forall k :: 0 <= k < n ==> !IsWs(s[k])
    ensures NoWs(s[..n]) && Contains(s, s[..n])
  {
    assert OccursAt(s, s[..n], 0);
  }

  lemma InCons(w: string, h: string, t: seq<string>, all: seq<string>)
    requires all == [h] + t && w in all
    ensures w == h || w in t
  {
  }

  lemma ContainsInSuffix(s: string, off: nat, w: string)
    requires off <= |s| && Contains(s[off..], w)
    ensures Contains(s, w)
  {
    var rest := s[off..];
    var i :| 0 <= i <= |rest| - |w| && OccursAt(rest, w, i);
    assert s[off + i..off + i + |w|] == rest[i..i + |w|];
    assert OccursAt(s, w, off + i);
  }

  /** Splitting `a + " " + b` for whitespace-free non-empty `a`, `b`. */
  lemma SplitTwoWords(a: string, b: string)
    requires a != [] && b != [] && NoWs(a) && NoWs(b)
    ensures SplitWs(a + " " + b) == [a, b]
  {
    var s := a + " " + b;
    ThreeParts(a, ' ', b);
    SpanBeforeSpace(a, b);
    assert s[|a|..] == " " + b;
    assert WsSpan(" " + b) == 1 by {
      assert (" " + b)[1] == b[0];
    }
    assert NonWsSpan(b) == |b|;
  }

  /** The first whitespace-free field of `a + " " + b` is `a`. */
  lemma SpanBeforeSpace(a: string, b: string)
    requires NoWs(a)
    ensures NonWsSpan(a + " " + b) == |a|
  {
    var s := a + " " + b;
    assert forall k :: 0 <= k < |a| ==> s[k] == a[k];
    assert s[|a|] == ' ';
  }

  lemma ThreeParts<T>(a: seq<T>, c: T, b: seq<T>)
    ensures (a + [c] + b)[..|a|] == a
    ensures (a + [c] + b)[|a|..] == [c] + b
    ensures (a + [c] + b)[|a| + 1..] == b
  {
  }

  /** JavaScript `s.replace(/\s+/g, ' ')`: each maximal whitespace run becomes
      one space. */
  function Collapse(s: string): (r: string)
    decreases |s|
    ensures |r| <= |s|
    ensures forall k :: 0 <= k < |r| && IsWs(r[k]) ==> r[k] == ' '
  {
    if s == [] then []
    else if IsWs(s[0]) then " " + Collapse(s[WsSpan(s)..])
    else [s[0]] + Collapse(s[1..])
  }

  /** A collapsed string never has two whitespace characters in a row. */
  lemma {:induction false} CollapseNoDoubleSpace(s: string)
    ensures forall k :: 0 <= k < |Collapse(s)| - 1 ==> !(IsWs(Collapse(s)[k]) && IsWs(Collapse(s)[k + 1]))
    ensures Collapse(s) != [] && IsWs(Collapse(s)[0]) ==> IsWs(s[0])
    decreases |s|
  {
    if s == [] {
    } else if IsWs(s[0]) {
      var rest := s[WsSpan(s)..];
      CollapseNoDoubleSpace(rest);
      if rest != [] {
        assert !IsWs(rest[0]);
      }
    } else {
      CollapseNoDoubleSpace(s[1..]);
    }
  }

  lemma {:induction false} CollapseIdentity(s: string)
    requires NoWs(s)
    ensures Collapse(s) == s
    decreases |s|
  {
    if s != [] {
      CollapseIdentity(s[1..]);
    }
  }

  lemma CollapseTwoWords(a: string, b: string)
    requires NoWs(a) && NoWs(b) && b != []
    ensures Collapse(a + " " + b) == a + " " + b
    decreases |a|
  {
    var s := a + " " + b;
    if a == [] {
      assert WsSpan(s) == 1 by { assert s[1] == b[0]; }
      assert s[1..] == b;
      CollapseIdentity(b);
    } else {
      assert s[1..] == a[1..] + " " + b;
      CollapseTwoWords(a[1..], b);
    }
  }

  /** Number of whitespace characters at the end of `s`. */
  function TrailingWs(s: string): (n: nat)
    ensures n <= |s|
    ensures forall k :: |s| - n <= k < |s| ==> IsWs(s[k])
    ensures n < |s| ==> !IsWs(s[|s| - n - 1])
  {
    if s == [] || !IsWs(s[|s| - 1]) then 0 else 1 + TrailingWs(s[..|s| - 1])
  }

  /** JavaScript `trim`: drop leading and trailing whitespace. */
  function Trim(s: string): (r: string)
    ensures |r| <= |s|
    ensures r != [] ==> !IsWs(r[0]) && !IsWs(r[|r| - 1])
    ensures r == [] <==> AllWs(s)
  {
    var a := s[WsSpan(s)..];
    var r := a[..|a| - TrailingWs(a)];
    assert r == [] ==> WsSpan(s) == |s|;
    r
  }

  /** The trimmed string is a contiguous piece of the input. */
  lemma TrimIsSlice(s: string)
    ensures WsSpan(s) + |Trim(s)| <= |s| && OccursAt(s, Trim(s), WsSpan(s))
  {
    var w := WsSpan(s);
    var a := s[w..];
    var n := |a| - TrailingWs(a);
    assert Trim(s) == a[..n];
    assert a[..n] == s[w..w + n];
  }

  /** No whitespace character other than a space, and never two in a row. */
  predicate SingleSpaced(s: string) {
    (forall k :: 0 <= k < |s| && IsWs(s[k]) ==> s[k] == ' ') &&
    forall k :: 0 <= k < |s| - 1 ==> !(IsWs(s[k]) && IsWs(s[k + 1]))
  }

  /** `replace(/\s+/g, ' ').trim()` leaves single spaces between words and
      none at either end, and is empty only for a blank input. */
  lemma TrimCollapse(s: string)
    ensures SingleSpaced(Trim(Collapse(s)))
    ensures Trim(Collapse(s)) == [] <==> AllWs(s)
  {
    TrimCollapseSpaced(s);
    CollapseBlank(s);
  }

  lemma TrimCollapseSpaced(s: string)
    ensures SingleSpaced(Trim(Collapse(s)))
  {
    var c := Collapse(s);
    CollapseNoDoubleSpace(s);
    assert SingleSpaced(c);
    TrimIsSlice(c);
    SingleSpacedSlice(c, WsSpan(c), WsSpan(c) + |Trim(c)|);
  }

  lemma SingleSpacedSlice(c: string, i: nat, j: nat)
    requires i <= j <= |c| && SingleSpaced(c)
    ensures SingleSpaced(c[i..j])
  {
    var r := c[i..j];
    assert forall k :: 0 <= k < |r| ==> r[k] == c[i + k];
  }

  /** A collapsed string is blank exactly when the input is. */
  lemma {:induction false} CollapseBlank(s: string)
    ensures AllWs(Collapse(s)) <==> AllWs(s)
    decreases |s|
  {
    if s != [] {
      if IsWs(s[0]) {
        var n := WsSpan(s);
        var t := s[n..];
        CollapseBlank(t);
        assert Collapse(s) == " " + Collapse(t);
        AllWsAppend(" ", Collapse(t));
        assert s == s[..n] + t;
        AllWsAppend(s[..n], t);
      } else {
        assert !IsWs(Collapse(s)[0]);
      }
    }
  }

  lemma AllWsAppend(a: string, b: string)
    ensures AllWs(a + b) <==> AllWs(a) && AllWs(b)
  {
    if AllWs(a) && AllWs(b) {
      forall k | 0 <= k < |a + b| ensures IsWs((a + b)[k]) {
        if k >= |a| {
          assert (a + b)[k] == b[k - |a|];
        }
      }
    }
    if AllWs(a + b) {
      forall k | 0 <= k < |a| ensures IsWs(a[k]) {
        assert (a + b)[k] == a[k];
      }
      forall k | 0 <= k < |b| ensures IsWs(b[k]) {
        assert (a + b)[|a| + k] == b[k];
      }
    }
  }

  lemma TrimIdentity(s: string)
    requires s == [] || (!IsWs(s[0]) && !IsWs(s[|s| - 1]))
    ensures Trim(s) == s
  {
    if s != [] {
      assert WsSpan(s) == 0;
      assert s[0..] == s;
      assert TrailingWs(s) == 0;
    }
  }

  /** `Trim` with at most one space added in front leaves a trimmed string as is. */
  lemma TrimLeadingSpace(s: string)
    requires s != [] && !IsWs(s[0]) && !IsWs(s[|s| - 1])
    ensures Trim(" " + s) == s && Trim(s) == s
  {
    var t := " " + s;
    assert WsSpan(t) == 1 by { assert t[1] == s[0]; }
    assert t[1..] == s;
    TrimIdentity(s);
  }

  /* ---------------------------------------------------------------------- */
  /* Splitting on a separator character                                      */

  /** JavaScript `s.split(sep)` for a one-character separator: the pieces
      between separators, so `""` splits to `[""]` and `","` to `["", ""]`. */
  function SplitOn(s: string, sep: char): (r: seq<string>)
    decreases |s|
    ensures |r| >= 1
    ensures forall k :: 0 <= k < |r| ==> sep !in r[k]
  {
    var i := FirstOccurrence(s, [sep]);
    NoSepBeforeFirst(s, sep);
    if i == -1 then
      [s]
    else
      [s[..i]] + SplitOn(s[i + 1..], sep)
  }

  /** No separator comes before the first occurrence of it (nor anywhere when there is none). */
  lemma NoSepBeforeFirst(s: string, sep: char)
    ensures var i := FirstOccurrence(s, [sep]);
            if i == -1 then sep !in s else sep !in s[..i]
  {
    var i := FirstOccurrence(s, [sep]);
    var n := if i == -1 then |s| else i;
    forall j | 0 <= j < n ensures s[j] != sep {
      OccursChar(s, sep, j);
      if i == -1 && s[j] == sep {
        ContainsAt(s, [sep], j);
      }
    }
    if i == -1 {
      assert s[..n] == s;
    }
  }

  /** Joins pieces with a separator string, the inverse of `SplitOn`. */
  function Join(pieces: seq<string>, sep: string): string {
    if pieces == [] then []
    else if |pieces| == 1 then pieces[0]
    else pieces[0] + sep + Join(pieces[1..], sep)
  }

  /** Each piece after the first, with `pad` in front. */
  function Prefixed(pieces: seq<string>, pad: string): (r: seq<string>)
    ensures |r| == |pieces|
    ensures forall k :: 0 <= k < |r| ==> r[k] == pad + pieces[k]
  {
    if pieces == [] then [] else [pad + pieces[0]] + Prefixed(pieces[1..], pad)
  }

  /** Splitting the joined pieces gives them back, each but the first with the
      padding that followed its separator. */
  lemma {:induction false} SplitOnJoin(pieces: seq<string>, sep: char, pad: string)
    requires pieces != []
    requires sep !in pad
    requires forall k :: 0 <= k < |pieces| ==> sep !in pieces[k]
    ensures SplitOn(Join(pieces, [sep] + pad), sep) == [pieces[0]] + Prefixed(pieces[1..], pad)
    decreases |pieces|
  {
    var s := Join(pieces, [sep] + pad);
    if |pieces| == 1 {
      assert s == pieces[0];
      NoSepNoOccurrence(s, sep);
    } else {
      var rest := Join(pieces[1..], [sep] + pad);
      assert s == pieces[0] + [sep] + (pad + rest);
      SplitOnCons(pieces[0], pad + rest, sep);
      SplitOnJoin(pieces[1..], sep, pad);
      SplitOnPrefix(pad, rest, sep);
      assert pieces[1..][1..] == pieces[2..];
    }
  }

  lemma NoSepNoOccurrence(s: string, sep: char)
    requires sep !in s
    ensures !Contains(s, [sep])
  {
    forall j | 0 <= j <= |s| - 1 ensures !OccursAt(s, [sep], j) {
      assert s[j] in s;
    }
  }

  lemma SplitOnNoSep(s: string, sep: char)
    requires sep !in s
    ensures SplitOn(s, sep) == [s]
  {
    NoSepNoOccurrence(s, sep);
  }

  /** A string is what comes before index `i`, the character there, and what follows. */
  lemma SplitAround(s: string, i: nat)
    requires i < |s|
    ensures s == s[..i] + [s[i]] + s[i + 1..]
  {
  }

  /** A separator-free first piece followed by the separator splits off. */
  lemma SplitOnCons(a: string, tail: string, sep: char)
    requires sep !in a
    ensures SplitOn(a + [sep] + tail, sep) == [a] + SplitOn(tail, sep)
  {
    var s := a + [sep] + tail;
    assert OccursAt(s, [sep], |a|);
    var i := FirstOccurrence(s, [sep]);
    forall j | 0 <= j < |a| ensures !OccursAt(s, [sep], j) {
      assert s[j..j + 1] == [a[j]];
      assert a[j] in a;
    }
    assert i == |a|;
    assert s[..i] == a;
    assert s[i + 1..] == tail;
  }

  /** A non-separator character in front joins the first piece. */
  lemma SplitOnConsChar(c: char, s1: string, sep: char)
    requires c != sep
    ensures var t := SplitOn(s1, sep);
            SplitOn([c] + s1, sep) == [[c] + t[0]] + t[1..]
  {
    var s := [c] + s1;
    assert s[1..] == s1;
    assert s[..1] == [c];
    var i1 := FirstOccurrence(s1, [sep]);
    var i := FirstOccurrence(s, [sep]);
    if i1 == -1 {
      assert i == -1;
    } else {
      assert i == i1 + 1;
      assert s[..i] == [c] + s1[..i1];
      assert s[i + 1..] == s1[i1 + 1..];
    }
  }

  /** A one-character pattern occurs exactly where that character is. */
  lemma OccursChar(s: string, c: char, j: int)
    requires 0 <= j < |s|
    ensures OccursAt(s, [c], j) <==> s[j] == c
  {
    assert s[j..j + 1] == [s[j]];
  }

  /** With separator-free text in front, the first separator moves by its length. */
  lemma FirstSepAfterPrefix(pad: string, rest: string, sep: char)
    requires sep !in pad
    ensures var i := FirstOccurrence(rest, [sep]);
            FirstOccurrence(pad + rest, [sep]) == if i == -1 then -1 else |pad| + i
  {
    var s := pad + rest;
    var i := FirstOccurrence(rest, [sep]);
    forall j | 0 <= j < |s| && (i == -1 || j < |pad| + i) ensures !OccursAt(s, [sep], j) {
      OccursChar(s, sep, j);
      if j < |pad| {
        assert s[j] == pad[j] && pad[j] in pad;
      } else {
        OccursChar(rest, sep, j - |pad|);
        assert s[j] == rest[j - |pad|];
      }
    }
    if i != -1 {
      OccursChar(s, sep, |pad| + i);
      OccursChar(rest, sep, i);
      assert s[|pad| + i] == rest[i];
      ContainsAt(s, [sep], |pad| + i);
    }
  }

  /** One step of `SplitOn`: the text before the first separator, then the rest. */
  lemma SplitOnUnfold(s: string, sep: char)
    ensures var i := FirstOccurrence(s, [sep]);
            SplitOn(s, sep) == if i == -1 then [s] else [s[..i]] + SplitOn(s[i + 1..], sep)
  {
  }

  lemma PieceWhole(pad: string, rest: string, a: seq<string>, t: seq<string>)
    requires a == [pad + rest] && t == [rest]
    ensures a == [pad + t[0]] + t[1..]
  {
    assert t[1..] == [];
  }

  lemma DropPad<T>(pad: seq<T>, rest: seq<T>, n: nat)
    requires n <= |rest|
    ensures (pad + rest)[|pad| + n..] == rest[n..]
  {
  }

  lemma PieceShift(pad: string, rest: string, i: nat, a: seq<string>, t: seq<string>, u: seq<string>)
    requires i < |rest|
    requires a == [(pad + rest)[..|pad| + i]] + u
    requires t == [rest[..i]] + u
    ensures a == [pad + t[0]] + t[1..]
  {
    assert (pad + rest)[..|pad| + i] == pad + rest[..i];
    assert t[1..] == u;
  }

  /** Prepending separator-free text only extends the first piece. */
  lemma SplitOnPrefix(pad: string, rest: string, sep: char)
    requires sep !in pad
    ensures var t := SplitOn(rest, sep);
            SplitOn(pad + rest, sep) == [pad + t[0]] + t[1..]
  {
    var i := FirstOccurrence(rest, [sep]);
    FirstSepAfterPrefix(pad, rest, sep);
    if i == -1 {
      SplitPrefixWhole(pad, rest, sep);
    } else {
      SplitPrefixAt(pad, rest, sep, i);
    }
  }

  lemma SplitPrefixWhole(pad: string, rest: string, sep: char)
    requires FirstOccurrence(pad + rest, [sep]) == -1 && FirstOccurrence(rest, [sep]) == -1
    ensures var t := SplitOn(rest, sep);
            SplitOn(pad + rest, sep) == [pad + t[0]] + t[1..]
  {
    SplitOnUnfold(pad + rest, sep);
    SplitOnUnfold(rest, sep);
    PieceWhole(pad, rest, SplitOn(pad + rest, sep), SplitOn(rest, sep));
  }

  lemma SplitPrefixAt(pad: string, rest: string, sep: char, i: nat)
    requires i < |rest|
    requires FirstOccurrence(pad + rest, [sep]) == |pad| + i && FirstOccurrence(rest, [sep]) == i
    ensures var t := SplitOn(rest, sep);
            SplitOn(pad + rest, sep) == [pad + t[0]] + t[1..]
  {
    SplitOnUnfold(pad + rest, sep);
    SplitOnUnfold(rest, sep);
    DropPad(pad, rest, i + 1);
    PieceShift(pad, rest, i, SplitOn(pad + rest, sep), SplitOn(rest, sep), SplitOn(rest[i + 1..], sep));
  }

  /* ---------------------------------------------------------------------- */
  /* Decimal rendering                                                       */

  function DigitChar(d: nat): char
    requires d < 10
  {
    ('0' as int + d) as char
  }

  /** `String(n)` for a natural number. */
  function NatToString(n: nat): (r: string)
    ensures r != [] && forall k :: 0 <= k < |r| ==> IsDigit(r[k])
  {
    if n < 10 then [DigitChar(n)] else NatToString(n / 10) + [DigitChar(n % 10)]
  }

  /** `n.toString()` for an integer. */
  function IntToString(n: int): (r: string)
    ensures r != []
  {
    if n < 0 then "-" + NatToString(-n) else NatToString(n)
  }
}
