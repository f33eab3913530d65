/** The administrator's category-to-subreddit mapping: a text of lines
    `category:sub1,sub2`, parsed line by line and resolved against the
    categories of the post being published. */
module Mapping {
  import opened Optional
  import opened PhpStrings

  /** One usable mapping line: a category and the subreddits listed for it,
      in the order written, empty and repeated names included. */
  datatype MappingEntry = MappingEntry(category: string, subreddits: seq<string>)

  /** One line of the mapping text. A line without a colon is skipped. A
      line with one is trimmed as a whole and cut at its colons: the
      category is what precedes the first colon, the subreddit list is what
      lies between the first and the second colon (anything after a second
      colon is ignored), and the list is cut at commas with each piece
      trimmed on its own. */
  function ParseLine(line: string): (e: Option<MappingEntry>)
    ensures e.None? <==> ':' !in line
  {
    if ':' !in line then None
    else
      var fields := Split(Trim(line), ':');
      Some(MappingEntry(fields[0], TrimEach(Split(SecondField(fields), ','))))
  }

  /** The second variable of `list($category, $subreddits) = explode(...)`:
      a missing element reads as null, which `explode` takes as "". (The
      trimmed line of a line with a colon always has a second field.) */
  function SecondField(fields: seq<string>): string {
    if |fields| > 1 then fields[1] else ""
  }

  /** The entries of the lines that have a colon, in line order. */
  function ParseLines(lines: seq<string>): (entries: seq<MappingEntry>)
    ensures |entries| <= |lines|
    decreases |lines|
  {
    if |lines| == 0 then [] else LineEntries(lines[0]) + ParseLines(lines[1..])
  }

  /** The entry a line yields, if any, as a list of at most one. */
  function LineEntries(line: string): seq<MappingEntry> {
    match ParseLine(line)
    case None => []
    case Some(e) => [e]
  }

  /** The mapping text split at line feeds (a carriage return left at the
      end of a line is removed later by the line's trim). */
  function ParseMapping(text: string): seq<MappingEntry> {
    ParseLines(Split(text, '\n'))
  }

  /** The subreddits of every entry whose category is one of the post's
      categories, concatenated in entry order. */
  function Resolve(entries: seq<MappingEntry>, categories: seq<string>): seq<string>
    decreases |entries|
  {
    if |entries| == 0 then []
    else
      (if entries[0].category in categories then entries[0].subreddits else [])
      + Resolve(entries[1..], categories)
  }

  /** The subreddits the mapping text selects for the post's categories;
      an empty mapping ("" or "0") selects none. */
  function MappedTargets(text: string, categories: seq<string>): seq<string> {
    if IsFalsy(text) then [] else Resolve(ParseMapping(text), categories)
  }

  /** The full target list: the mapped subreddits, then the manual
      subreddit when it is not empty in PHP's sense. */
  function TargetSubreddits(text: string, categories: seq<string>, manual: string): (r: seq<string>)
    ensures |r| == |MappedTargets(text, categories)| + (if IsFalsy(manual) then 0 else 1)
    ensures r[..|MappedTargets(text, categories)|] == MappedTargets(text, categories)
    ensures !IsFalsy(manual) ==> r[|r| - 1] == manual
  {
    MappedTargets(text, categories) + (if IsFalsy(manual) then [] else [manual])
  }

  // ---------------------------------------------------------------------
  // The shape of one line

  /** A line that starts with its category (or with the colon) keeps all of
      it on the left. */
  lemma TrimLeftAtCategory(cat: string, rest: string)
    requires cat == [] || !IsTrimChar(cat[0])
    ensures TrimLeft(cat + ":" + rest) == cat + ":" + rest
  {
    var x := cat + ":" + rest;
    if cat == [] {
      assert x == [':'] + rest;
      TrimLeftStopsAt(':', rest);
    } else {
      assert x == [cat[0]] + (cat[1..] + ":" + rest);
      TrimLeftStopsAt(cat[0], cat[1..] + ":" + rest);
    }
  }

  /** Trimming a line with a colon: leading trim characters go, the
      category keeps any spaces it has before the colon, and only the tail
      of the line loses its trailing trim characters. */
  lemma TrimLineWithColon(lead: string, cat: string, rest: string)
    requires AllTrimChars(lead)
    requires cat == [] || !IsTrimChar(cat[0])
    ensures Trim(lead + cat + ":" + rest) == cat + ":" + TrimRight(rest)
  {
    TrimLeftSkipsLead(lead, cat + ":" + rest);
    TrimLeftAtCategory(cat, rest);
    TrimRightKeepsThrough(cat, ':', rest);
    ConcatAssoc(lead, cat, ":", rest);
    TrimIsBothSides(lead + cat + ":" + rest);
  }

  /** `ParseLine` on a line with a colon, given its trimmed form. */
  lemma ParseLineOfTrimmed(line: string, t: string)
    requires ':' in line && Trim(line) == t
    ensures ParseLine(line) ==
              Some(MappingEntry(Split(t, ':')[0], TrimEach(Split(SecondField(Split(t, ':')), ','))))
  {
  }

  /** The fields of a trimmed line: the category and the list up to the
      next colon, if there is one. */
  lemma FieldsOfTrimmedLine(cat: string, subs: string, tail: seq<string>, t: string)
    requires ':' !in cat && ':' !in subs
    requires t == cat + [':'] + subs || (|tail| > 0 && t == cat + [':'] + (subs + [':'] + tail[0]))
    ensures Split(t, ':')[0] == cat && SecondField(Split(t, ':')) == subs
  {
    SplitWithoutDelimiter(cat, ':');
    SplitWithoutDelimiter(subs, ':');
    if t == cat + [':'] + subs {
      SplitAround(cat, subs, ':');
    } else {
      SplitAround(cat, subs + [':'] + tail[0], ':');
      SplitAround(subs, tail[0], ':');
    }
  }

  lemma NoDelimiterAmongTrimChars(w: string, d: char)
    requires AllTrimChars(w) && !IsTrimChar(d)
    ensures d !in w
  {
  }

  /** Replacing the last piece by one that trims the same keeps every
      trimmed piece. */
  lemma TrimEachLastReplaced(pieces: seq<string>, last: string)
    requires |pieces| >= 1 && Trim(last) == Trim(pieces[|pieces| - 1])
    ensures TrimEach(pieces[..|pieces| - 1] + [last]) == TrimEach(pieces)
  {
    var n := |pieces| - 1;
    var replaced := pieces[..n] + [last];
    forall i | 0 <= i < |pieces| ensures Trim(replaced[i]) == Trim(pieces[i]) {
      if i < n {
        assert replaced[i] == pieces[i];
      }
    }
  }

  /** Trailing trim characters after a comma list change none of its
      trimmed pieces. */
  lemma TrimmedPiecesIgnoreTrailing(x: string, w: string)
    requires AllTrimChars(w)
    ensures TrimEach(Split(x + w, ',')) == TrimEach(Split(x, ','))
  {
    NoDelimiterAmongTrimChars(w, ',');
    SplitAppendToLast(x, w, ',');
    var px := Split(x, ',');
    TrimIgnoresTrailing(px[|px| - 1], w);
    TrimEachLastReplaced(px, px[|px| - 1] + w);
  }

  lemma TrimRightSplitsOff(s: string, c: char)
    requires c !in s
    ensures c !in TrimRight(s) && s == TrimRight(s) + s[|TrimRight(s)|..]
    ensures AllTrimChars(s[|TrimRight(s)|..])
  {
    var r := TrimRight(s);
    TrimRightDropsTrimChars(s);
    assert forall k :: 0 <= k < |r| ==> r[k] == s[k];
  }

  /** Trimming a line that starts with its category: the case of
      `TrimLineWithColon` without leading characters. */
  lemma TrimLineAtCategory(cat: string, rest: string)
    requires cat == [] || !IsTrimChar(cat[0])
    ensures Trim(cat + ":" + rest) == cat + ":" + TrimRight(rest)
  {
    var none: string := [];
    assert none + cat == cat;
    TrimLineWithColon(none, cat, rest);
  }

  /** Lines with a colon that trim alike parse alike. */
  lemma ParseLineSameTrim(a: string, b: string)
    requires ':' in a && ':' in b && Trim(a) == Trim(b)
    ensures ParseLine(a) == ParseLine(b)
  {
  }

  /** A line `category:subreddits` that starts with its category: the
      category is the text before the colon exactly as written (trailing
      spaces included), and each comma-separated piece of the rest is
      trimmed on its own. */
  lemma ParseLineAtCategory(cat: string, subs: string)
    requires cat == [] || !IsTrimChar(cat[0])
    requires ':' !in cat && ':' !in subs
    ensures ParseLine(cat + ":" + subs) == Some(MappingEntry(cat, TrimEach(Split(subs, ','))))
  {
    var line := cat + ":" + subs;
    assert line[|cat|] == ':';
    TrimLineAtCategory(cat, subs);
    var tr := TrimRight(subs);
    TrimRightSplitsOff(subs, ':');
    var t := cat + ":" + tr;
    assert t == cat + [':'] + tr;
    ParseLineOfTrimmed(line, t);
    FieldsOfTrimmedLine(cat, tr, [], t);
    TrimmedPiecesIgnoreTrailing(tr, subs[|tr|..]);
  }

  /** A line with exactly one colon, possibly indented by trim characters:
      the category is the text between the indentation and the colon,
      exactly as written (spaces before the colon included), and the
      subreddits are the comma pieces of the text after the colon, each
      trimmed on its own. */
  lemma ParseLineFields(lead: string, cat: string, subs: string)
    requires AllTrimChars(lead)
    requires cat == [] || !IsTrimChar(cat[0])
    requires ':' !in cat && ':' !in subs
    ensures ParseLine(lead + cat + ":" + subs) == Some(MappingEntry(cat, TrimEach(Split(subs, ','))))
  {
    var line := lead + cat + ":" + subs;
    assert line[|lead + cat|] == ':';
    assert (cat + ":" + subs)[|cat|] == ':';
    TrimLineWithColon(lead, cat, subs);
    TrimLineAtCategory(cat, subs);
    ParseLineSameTrim(line, cat + ":" + subs);
    ParseLineAtCategory(cat, subs);
  }

  /** `line` is `lead`, then `cat`, then a colon, then `subs`, where `lead`
      is all trim characters and `cat` is colon-free and does not start
      with one. */
  predicate IsLineShape(line: string, lead: string, cat: string, subs: string) {
    && AllTrimChars(lead)
    && (cat == [] || !IsTrimChar(cat[0]))
    && ':' !in cat
    && line == lead + cat + ":" + subs
  }

  /** The position of the first occurrence of `c`. */
  function FirstIndexOf(s: string, c: char): (i: nat)
    requires c in s
    ensures i < |s| && s[i] == c && c !in s[..i]
    decreases |s|
  {
    if s[0] == c then 0
    else
      var i := 1 + FirstIndexOf(s[1..], c);
      assert s[..i] == [s[0]] + s[1..][..i - 1];
      i
  }

  /** Every line with a colon has that shape: its leading trim
      characters, the text up to the first colon, and the rest. So
      `ParseLineFields` and `ParseLineIgnoresAfterSecondColon` between them
      cover every line that yields an entry. */
  function LineParts(line: string): (parts: (string, string, string))
    requires ':' in line
    ensures IsLineShape(line, parts.0, parts.1, parts.2)
  {
    var l := TrimLeft(line);
    TrimLeftDropsTrimChars(line);
    KeptBySuffix(line, l, ':');
    var lead := line[..|line| - |l|];
    var j := FirstIndexOf(l, ':');
    LinePartsAt(line, l, j);
    (lead, l[..j], l[j + 1..])
  }

  /** The shape, given the left-trimmed line and its first colon. */
  lemma LinePartsAt(line: string, l: string, j: nat)
    requires |l| <= |line| && l == line[|line| - |l|..] && AllTrimChars(line[..|line| - |l|])
    requires (l == [] || !IsTrimChar(l[0])) && j < |l| && l[j] == ':' && ':' !in l[..j]
    ensures IsLineShape(line, line[..|line| - |l|], l[..j], l[j + 1..])
  {
    var lead := line[..|line| - |l|];
    var cat, subs := l[..j], l[j + 1..];
    assert line == lead + l by {
      CutBefore(line, |line| - |l|);
    }
    assert l == cat + ":" + subs by {
      CutAt(l, j);
      assert [l[j]] == ":";
    }
    assert cat == [] || cat[0] == l[0];
    LineShapeOfParts(line, lead, l, cat, subs);
  }

  lemma LineShapeOfParts(line: string, lead: string, l: string, cat: string, subs: string)
    requires line == lead + l && l == cat + ":" + subs
    requires AllTrimChars(lead) && (cat == [] || !IsTrimChar(cat[0])) && ':' !in cat
    ensures IsLineShape(line, lead, cat, subs)
  {
    ConcatAssoc(lead, cat, ":", subs);
  }

  /** Cutting a string at an index and joining the halves gives it back;
      called to name the cut a proof needs. */
  lemma CutBefore(s: string, k: nat)
    requires k <= |s|
    ensures s == s[..k] + s[k..]
  {
  }

  /** The same around the character at an index. */
  lemma CutAt(s: string, j: nat)
    requires j < |s|
    ensures s == s[..j] + [s[j]] + s[j + 1..]
  {
  }

  lemma TrimLineWithTwoColons(lead: string, cat: string, subs: string, tail: string)
    requires AllTrimChars(lead)
    requires cat == [] || !IsTrimChar(cat[0])
    ensures Trim(lead + cat + ":" + subs + ":" + tail) == cat + [':'] + (subs + [':'] + TrimRight(tail))
  {
    ConcatAssoc(lead + cat + ":", subs, ":", tail);
    TrimLineWithColon(lead, cat, subs + ":" + tail);
    TrimRightKeepsThrough(subs, ':', tail);
  }

  /** Whatever follows a second colon on a line is ignored. */
  lemma ParseLineIgnoresAfterSecondColon(lead: string, cat: string, subs: string, tail: string)
    requires AllTrimChars(lead)
    requires cat == [] || !IsTrimChar(cat[0])
    requires ':' !in cat && ':' !in subs
    ensures ParseLine(lead + cat + ":" + subs + ":" + tail) == ParseLine(lead + cat + ":" + subs)
  {
    var line := lead + cat + ":" + subs + ":" + tail;
    assert line[|lead + cat|] == ':';
    TrimLineWithTwoColons(lead, cat, subs, tail);
    var t := cat + [':'] + (subs + [':'] + TrimRight(tail));
    ParseLineOfTrimmed(line, t);
    FieldsOfTrimmedLine(cat, subs, [TrimRight(tail)], t);
    ParseLineFields(lead, cat, subs);
  }

  // ---------------------------------------------------------------------
  // Lines, entries and targets

  lemma {:induction false} ParseLinesAppend(a: seq<string>, b: seq<string>)
    ensures ParseLines(a + b) == ParseLines(a) + ParseLines(b)
    decreases |a|
  {
    if |a| == 0 {
      assert a + b == b;
    } else {
      assert (a + b)[0] == a[0] && (a + b)[1..] == a[1..] + b;
      var head := LineEntries(a[0]);
      assert ParseLines(a + b) == head + ParseLines(a[1..] + b);
      ParseLinesAppend(a[1..], b);
      assert ParseLines(a + b) == head + (ParseLines(a[1..]) + ParseLines(b));
    }
  }

  lemma {:induction false} ResolveAppend(a: seq<MappingEntry>, b: seq<MappingEntry>, categories: seq<string>)
    ensures Resolve(a + b, categories) == Resolve(a, categories) + Resolve(b, categories)
    decreases |a|
  {
    if |a| == 0 {
      assert a + b == b;
    } else {
      assert (a + b)[0] == a[0] && (a + b)[1..] == a[1..] + b;
      ResolveAppend(a[1..], b, categories);
    }
  }

  /** What a single line contributes to the targets: nothing without a
      colon or when its category is not one of the post's categories,
      otherwise its subreddit list. */
  lemma MappedTargetsOfLine(line: string, categories: seq<string>)
    requires '\n' !in line
    ensures MappedTargets(line, categories) ==
              match ParseLine(line)
              case None => []
              case Some(e) => if e.category in categories then e.subreddits else []
  {
    SplitWithoutDelimiter(line, '\n');
    if IsFalsy(line) {
      assert ':' !in line;
    } else {
      var entries := ParseLines([line]);
      assert entries == ParseLines([line][..1]);
      match ParseLine(line)
      case None =>
        assert entries == [];
      case Some(e) =>
        assert entries == [e];
        assert Resolve(entries, categories) ==
               (if e.category in categories then e.subreddits else []) + Resolve([], categories);
    }
  }

  /** Mapping texts joined by a line feed parse to the entries of the
      first followed by those of the second. */
  lemma ParseMappingAppend(a: string, b: string)
    ensures ParseMapping(a + "\n" + b) == ParseMapping(a) + ParseMapping(b)
  {
    assert a + "\n" + b == a + ['\n'] + b;
    SplitAround(a, b, '\n');
    ParseLinesAppend(Split(a, '\n'), Split(b, '\n'));
  }

  /** An empty mapping text ("" or "0") has no entries. */
  lemma FalsyMappingHasNoEntries(text: string)
    requires IsFalsy(text)
    ensures ParseMapping(text) == []
  {
    SplitWithoutDelimiter(text, '\n');
    assert ParseLines([text]) == [] + ParseLines([]);
  }

  /** Mapping texts joined by a line feed target the first text's
      subreddits followed by the second's: lines are resolved independently
      and in order. */
  lemma MappedTargetsAppend(a: string, b: string, categories: seq<string>)
    ensures MappedTargets(a + "\n" + b, categories) == MappedTargets(a, categories) + MappedTargets(b, categories)
  {
    var text := a + "\n" + b;
    assert !IsFalsy(text) by { assert text[|a|] == '\n'; }
    ParseMappingAppend(a, b);
    ResolveAppend(ParseMapping(a), ParseMapping(b), categories);
    if IsFalsy(a) {
      FalsyMappingHasNoEntries(a);
    }
    if IsFalsy(b) {
      FalsyMappingHasNoEntries(b);
    }
  }

  /** A mapping line without a colon contributes nothing, whatever the
      post's categories: removing it leaves the targets unchanged. */
  lemma ColonFreeLineIgnored(before: string, line: string, after: string, categories: seq<string>)
    requires ':' !in line && '\n' !in line
    ensures MappedTargets(before + "\n" + line + "\n" + after, categories)
         == MappedTargets(before + "\n" + after, categories)
  {
    MappedTargetsAroundLine(before, line, after, categories);
    ColonFreeLineTargets(line, categories);
    MappedTargetsAppend(before, after, categories);
  }

  /** The targets of a text split at two line feeds, part by part. */
  lemma MappedTargetsAroundLine(before: string, line: string, after: string, categories: seq<string>)
    ensures MappedTargets(before + "\n" + line + "\n" + after, categories)
         == MappedTargets(before, categories) + MappedTargets(line, categories) + MappedTargets(after, categories)
  {
    var rest := line + "\n" + after;
    assert before + "\n" + line + "\n" + after == before + "\n" + rest by {
      ConcatAssoc(before + "\n", line, "\n", after);
    }
    MappedTargetsAppend(before, rest, categories);
    MappedTargetsAppend(line, after, categories);
    AppendAssoc(MappedTargets(before, categories), MappedTargets(line, categories), MappedTargets(after, categories));
  }

  lemma ColonFreeLineTargets(line: string, categories: seq<string>)
    requires ':' !in line && '\n' !in line
    ensures MappedTargets(line, categories) == []
  {
    MappedTargetsOfLine(line, categories);
  }

  /** Membership in the resolved list: a subreddit is targeted exactly when
      some entry for one of the post's categories lists it. */
  lemma {:induction false} ResolveMembers(entries: seq<MappingEntry>, categories: seq<string>, s: string)
    ensures s in Resolve(entries, categories) <==>
            exists i :: 0 <= i < |entries| && entries[i].category in categories && s in entries[i].subreddits
    decreases |entries|
  {
    if |entries| > 0 {
      ResolveMembers(entries[1..], categories, s);
      if s in Resolve(entries[1..], categories) {
        var i :| 0 <= i < |entries[1..]| && entries[1..][i].category in categories && s in entries[1..][i].subreddits;
        assert entries[i + 1] == entries[1..][i];
      }
      if exists i :: 0 <= i < |entries| && entries[i].category in categories && s in entries[i].subreddits {
        var i :| 0 <= i < |entries| && entries[i].category in categories && s in entries[i].subreddits;
        if i > 0 {
          assert entries[1..][i - 1] == entries[i];
        }
      }
    }
  }

  /** The number of subreddits the matching entries list, counted entry by
      entry. */
  function MatchedCount(entries: seq<MappingEntry>, categories: seq<string>): nat
    decreases |entries|
  {
    if |entries| == 0 then 0
    else
      (if entries[0].category in categories then |entries[0].subreddits| else 0)
      + MatchedCount(entries[1..], categories)
  }

  /** Nothing is deduplicated: the target list is as long as the matching
      entries' lists together, plus one for a non-empty manual subreddit. */
  lemma {:induction false} TargetCount(text: string, categories: seq<string>, manual: string)
    ensures |TargetSubreddits(text, categories, manual)|
         == MatchedCount(ParseMapping(text), categories) + (if IsFalsy(manual) then 0 else 1)
  {
    if IsFalsy(text) {
      FalsyMappingHasNoEntries(text);
    } else {
      ResolveCount(ParseMapping(text), categories);
    }
  }

  lemma {:induction false} ResolveCount(entries: seq<MappingEntry>, categories: seq<string>)
    ensures |Resolve(entries, categories)| == MatchedCount(entries, categories)
    decreases |entries|
  {
    if |entries| > 0 {
      ResolveCount(entries[1..], categories);
    }
  }
  // ---------------------------------------------------------------------
  // Worked examples, for any names of the usual shape

  /** A category or subreddit name as an administrator writes it: not
      empty, nothing to trim at either end, and none of the separators. */
  predicate IsPlainName(s: string) {
    && |s| > 0
    && !IsTrimChar(s[0]) && !IsTrimChar(s[|s| - 1])
    && ':' !in s && ',' !in s && '\n' !in s
  }

  /** A line's category as the parser can see it: nothing to trim before
      it, and no colon or line feed inside it. Unlike a plain name it may be
      empty or end in spaces; every plain name is one. */
  predicate StartsLine(cat: string) {
    (cat == [] || !IsTrimChar(cat[0])) && ':' !in cat && '\n' !in cat
  }

  /** What a one-line mapping `category:subreddits` contributes. */
  lemma CategoryLineTargets(cat: string, subs: string, categories: seq<string>)
    requires StartsLine(cat) && ':' !in subs && '\n' !in subs
    ensures MappedTargets(cat + ":" + subs, categories)
            == if cat in categories then TrimEach(Split(subs, ',')) else []
  {
    ParseLineAtCategory(cat, subs);
    MappedTargetsOfLine(cat + ":" + subs, categories);
  }

  /** Plain names pass through the piece trim unchanged. */
  lemma TrimEachPlain(pieces: seq<string>)
    requires forall i :: 0 <= i < |pieces| ==> pieces[i] == "" || IsPlainName(pieces[i])
    ensures TrimEach(pieces) == pieces
  {
    forall i | 0 <= i < |pieces| ensures Trim(pieces[i]) == pieces[i] {
      TrimKeepsTrimmed(pieces[i]);
    }
  }

  /** Two comma-free pieces joined by a comma split back into the two. */
  lemma SplitTwo(s1: string, s2: string)
    requires ',' !in s1 && ',' !in s2
    ensures Split(s1 + "," + s2, ',') == [s1, s2]
  {
    assert s1 + "," + s2 == s1 + [','] + s2;
    SplitAround(s1, s2, ',');
    SplitWithoutDelimiter(s1, ',');
    SplitWithoutDelimiter(s2, ',');
  }

  /** A single subreddit after the colon. */
  lemma PlainNameTargets(cat: string, sub: string, categories: seq<string>)
    requires StartsLine(cat) && IsPlainName(sub)
    ensures MappedTargets(cat + ":" + sub, categories) == if cat in categories then [sub] else []
  {
    SinglePiece(sub);
    CategoryLineTargets(cat, sub, categories);
  }

  lemma SinglePiece(sub: string)
    requires IsPlainName(sub)
    ensures TrimEach(Split(sub, ',')) == [sub]
  {
    SplitWithoutDelimiter(sub, ',');
    TrimEachPlain([sub]);
  }

  /** Two subreddits after the colon. */
  lemma PlainPairTargets(cat: string, s1: string, s2: string, categories: seq<string>)
    requires IsPlainName(cat) && IsPlainName(s1) && IsPlainName(s2)
    ensures MappedTargets(cat + ":" + (s1 + "," + s2), categories) == if cat in categories then [s1, s2] else []
  {
    PairPieces(s1, s2);
    CategoryLineTargets(cat, s1 + "," + s2, categories);
  }

  lemma PairPieces(s1: string, s2: string)
    requires IsPlainName(s1) && IsPlainName(s2)
    ensures TrimEach(Split(s1 + "," + s2, ',')) == [s1, s2]
    ensures ':' !in s1 + "," + s2 && '\n' !in s1 + "," + s2
  {
    SplitTwo(s1, s2);
    TrimEachPlain([s1, s2]);
    PlainJoinedPlain(s1, ",", s2);
  }

  /** Joining plain names with separator text keeps out colons and line
      feeds. */
  lemma PlainJoinedPlain(s1: string, sep: string, s2: string)
    requires IsPlainName(s1) && IsPlainName(s2) && ':' !in sep && '\n' !in sep
    ensures ':' !in s1 + sep + s2 && '\n' !in s1 + sep + s2
  {
  }

  /** A mapping of two lines, `tech:programming,coding` and
      `news:worldnews`: a post in "tech" alone targets the two subreddits of
      the first line, and a manual subreddit follows them. */
  lemma TwoLineExample(tech: string, programming: string, coding: string, news: string, worldnews: string, manual: string)
    requires IsPlainName(tech) && IsPlainName(programming) && IsPlainName(coding)
    requires IsPlainName(news) && IsPlainName(worldnews) && news != tech
    requires !IsFalsy(manual)
    ensures var text := tech + ":" + (programming + "," + coding) + "\n" + (news + ":" + worldnews);
            && TargetSubreddits(text, [tech], "") == [programming, coding]
            && TargetSubreddits(text, [tech], manual) == [programming, coding, manual]
  {
    MappedTargetsAppend(tech + ":" + (programming + "," + coding), news + ":" + worldnews, [tech]);
    PlainPairTargets(tech, programming, coding, [tech]);
    PlainNameTargets(news, worldnews, [tech]);
  }

  /** The same example with the names written out. */
  lemma TwoLineExampleSpelledOut()
    ensures var text := "tech" + ":" + ("programming" + "," + "coding") + "\n" + ("news" + ":" + "worldnews");
            && TargetSubreddits(text, ["tech"], "") == ["programming", "coding"]
            && TargetSubreddits(text, ["tech"], "askreddit") == ["programming", "coding", "askreddit"]
  {
    TwoLineExample("tech", "programming", "coding", "news", "worldnews", "askreddit");
  }

  /** A space before the colon stays in the category: `tech :x` does not
      map category "tech", it maps category "tech ". */
  lemma SpaceBeforeColonExample(tech: string, x: string)
    requires IsPlainName(tech) && IsPlainName(x)
    ensures TargetSubreddits(tech + " " + ":" + x, [tech], "") == []
    ensures TargetSubreddits(tech + " " + ":" + x, [tech + " "], "") == [x]
  {
    var cat := tech + " ";
    assert StartsLine(cat) by { assert cat[0] == tech[0]; }
    assert cat + ":" + x == tech + " " + ":" + x;
    PlainNameTargets(cat, x, [tech]);
    PlainNameTargets(cat, x, [cat]);
    assert cat !in [tech] by { assert |cat| != |tech|; }
  }

  /** Three comma-free pieces, the middle one empty. */
  lemma SplitEmptyMiddle(a: string, b: string)
    requires ',' !in a && ',' !in b
    ensures Split(a + ",," + b, ',') == [a, "", b]
  {
    assert a + ",," + b == a + [','] + ("" + "," + b);
    SplitAround(a, "" + "," + b, ',');
    SplitTwo("", b);
    SplitWithoutDelimiter(a, ',');
  }

  lemma EmptyMiddlePieces(a: string, b: string)
    requires IsPlainName(a) && IsPlainName(b)
    ensures TrimEach(Split(a + ",," + b, ',')) == [a, "", b]
    ensures ':' !in a + ",," + b && '\n' !in a + ",," + b
  {
    SplitEmptyMiddle(a, b);
    TrimEachPlain([a, "", b]);
    PlainJoinedPlain(a, ",,", b);
  }

  /** A comma list with an empty middle piece, e.g. `a,,b`. */
  lemma EmptyMiddleTargets(cat: string, a: string, b: string, categories: seq<string>)
    requires IsPlainName(cat) && IsPlainName(a) && IsPlainName(b) && cat in categories
    ensures MappedTargets(cat + ":" + (a + ",," + b), categories) == [a, "", b]
  {
    EmptyMiddlePieces(a, b);
    CategoryLineTargets(cat, a + ",," + b, categories);
  }

  /** Empty pieces of a comma list are kept as empty subreddit names. */
  lemma EmptyPieceExample(tech: string, a: string, b: string)
    requires IsPlainName(tech) && IsPlainName(a) && IsPlainName(b)
    ensures TargetSubreddits(tech + ":" + (a + ",," + b), [tech], "") == [a, "", b]
  {
    EmptyMiddleTargets(tech, a, b, [tech]);
  }

  /** A subreddit reached through two categories and named again as the
      manual subreddit is targeted three times. */
  lemma DuplicatesKeptExample(tech: string, news: string, s: string)
    requires IsPlainName(tech) && IsPlainName(news) && IsPlainName(s) && s != "0"
    ensures TargetSubreddits(tech + ":" + s + "\n" + (news + ":" + s), [tech, news], s) == [s, s, s]
  {
    SameSubredditTwice(tech, news, s, [tech, news]);
  }

  lemma SameSubredditTwice(tech: string, news: string, s: string, categories: seq<string>)
    requires IsPlainName(tech) && IsPlainName(news) && IsPlainName(s)
    requires tech in categories && news in categories
    ensures MappedTargets(tech + ":" + s + "\n" + (news + ":" + s), categories) == [s, s]
  {
    MappedTargetsAppend(tech + ":" + s, news + ":" + s, categories);
    PlainNameTargets(tech, s, categories);
    PlainNameTargets(news, s, categories);
  }

  /** A carriage return at the end of a line is removed by the trim. */
  lemma CarriageReturnLineTargets(cat: string, sub: string, categories: seq<string>)
    requires IsPlainName(cat) && IsPlainName(sub)
    ensures MappedTargets(cat + ":" + (sub + "\r"), categories) == if cat in categories then [sub] else []
  {
    CategoryLineTargets(cat, sub + "\r", categories);
    SplitWithoutDelimiter(sub + "\r", ',');
    TrimIgnoresTrailing(sub, "\r");
    TrimKeepsTrimmed(sub);
  }

  /** Trailing trim characters, such as the carriage return a CRLF line
      ending leaves behind, change nothing about a line: it parses as the
      line without them. */
  lemma TrailingTrimCharsIgnored(line: string, w: string)
    requires AllTrimChars(w)
    ensures ParseLine(line + w) == ParseLine(line)
  {
    TrimIgnoresTrailing(line, w);
    if ':' in line {
      var k :| 0 <= k < |line| && line[k] == ':';
      assert (line + w)[k] == ':';
    } else {
      forall i | 0 <= i < |line + w| ensures (line + w)[i] != ':' {
        if i >= |line| {
          assert (line + w)[i] == w[i - |line|];
        }
      }
    }
  }

  /** A two-line example of a mapping saved with carriage-return line
      endings: it resolves as if it had plain line feeds. */
  lemma CarriageReturnExample(tech: string, a: string, news: string, b: string)
    requires IsPlainName(tech) && IsPlainName(a) && IsPlainName(news) && IsPlainName(b)
    ensures TargetSubreddits(tech + ":" + (a + "\r") + "\n" + (news + ":" + b), [tech, news], "") == [a, b]
  {
    MappedTargetsAppend(tech + ":" + (a + "\r"), news + ":" + b, [tech, news]);
    CarriageReturnLineTargets(tech, a, [tech, news]);
    PlainNameTargets(news, b, [tech, news]);
  }
}
