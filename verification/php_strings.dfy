/** The PHP string built-ins the plugin relies on: `trim`, `explode`,
    `implode` and the falsiness of a string under `empty($s)` / `!$s`.
    PHP strings are byte strings; the model works on characters instead.
    Every character these functions treat specially is ASCII, so the
    difference never shows here. */
module PhpStrings {

  /** The characters PHP's `trim` strips by default: space, tab, line feed,
      carriage return, NUL and vertical tab. */
  predicate IsTrimChar(c: char) {
    c == ' ' || c == '\t' || c == '\n' || c == '\r' || c == '\0' || c == '\U{B}'
  }

  predicate AllTrimChars(s: string) {
    forall i :: 0 <= i < |s| ==> IsTrimChar(s[i])
  }

  /** `empty($s)` for a string, which is also `!$s`: true exactly for the
      empty string and for "0". */
  predicate IsFalsy(s: string) {
    s == "" || s == "0"
  }

  /** `ltrim($s)`: the suffix left once the leading trim characters are gone. */
  function TrimLeft(s: string): (r: string)
    ensures |r| <= |s| && r == s[|s| - |r|..]
    ensures r == [] || !IsTrimChar(r[0])
    decreases |s|
  {
    if |s| > 0 && IsTrimChar(s[0]) then TrimLeft(s[1..]) else s
  }

  /** `rtrim($s)`: the prefix left once the trailing trim characters are gone. */
  function TrimRight(s: string): (r: string)
    ensures |r| <= |s| && r == s[..|r|]
    ensures r == [] || !IsTrimChar(r[|r| - 1])
    decreases |s|
  {
    if |s| > 0 && IsTrimChar(s[|s| - 1]) then TrimRight(s[..|s| - 1]) else s
  }

  /** `ltrim` removes trim characters only. */
  lemma {:induction false} TrimLeftDropsTrimChars(s: string)
    ensures AllTrimChars(s[..|s| - |TrimLeft(s)|])
    decreases |s|
  {
    if |s| > 0 && IsTrimChar(s[0]) {
      TrimLeftDropsTrimChars(s[1..]);
      var k := |s| - |TrimLeft(s)|;
      assert forall i :: 1 <= i < k ==> s[..k][i] == s[1..][..k - 1][i - 1];
    }
  }

  /** `rtrim` removes trim characters only. */
  lemma {:induction false} TrimRightDropsTrimChars(s: string)
    ensures AllTrimChars(s[|TrimRight(s)|..])
    decreases |s|
  {
    if |s| > 0 && IsTrimChar(s[|s| - 1]) {
      var front := s[..|s| - 1];
      TrimRightDropsTrimChars(front);
      var k := |TrimRight(s)|;
      assert s[k..] == front[k..] + [s[|s| - 1]];
    }
  }

  /** `r` is the slice of `s` starting at `i`, with only trim characters
      before and after it. */
  predicate IsTrimmedSliceAt(s: string, r: string, i: int) {
    && 0 <= i <= |s| - |r|
    && r == s[i..i + |r|]
    && AllTrimChars(s[..i])
    && AllTrimChars(s[i + |r|..])
  }

  /** `trim($s)`: both ends stripped of trim characters. */
  function Trim(s: string): (r: string)
    ensures r == [] || (!IsTrimChar(r[0]) && !IsTrimChar(r[|r| - 1]))
  {
    var l := TrimLeft(s);
    var r := TrimRight(l);
    TrimLeftDropsTrimChars(s);
    TrimRightDropsTrimChars(l);
    TrimSliceWitness(s, l, r);
    r
  }

  /** `trim($s)` is the slice of `s` between a run of trim characters on
      each side. */
  lemma TrimIsSlice(s: string)
    ensures exists i :: IsTrimmedSliceAt(s, Trim(s), i)
  {
    var l := TrimLeft(s);
    var r := TrimRight(l);
    TrimLeftDropsTrimChars(s);
    TrimRightDropsTrimChars(l);
    TrimSliceWitness(s, l, r);
    assert Trim(s) == r;
    assert IsTrimmedSliceAt(s, Trim(s), |s| - |l|);
  }

  /** Composes the contracts of `TrimLeft` and `TrimRight` into a slice of `s`. */
  lemma TrimSliceWitness(s: string, l: string, r: string)
    requires |l| <= |s| && l == s[|s| - |l|..] && AllTrimChars(s[..|s| - |l|])
    requires l == [] || !IsTrimChar(l[0])
    requires |r| <= |l| && r == l[..|r|] && AllTrimChars(l[|r|..])
    requires r == [] || !IsTrimChar(r[|r| - 1])
    ensures IsTrimmedSliceAt(s, r, |s| - |l|)
    ensures r == [] || (!IsTrimChar(r[0]) && !IsTrimChar(r[|r| - 1]))
  {
    if r != [] {
      assert r[0] == l[0];
    }
  }

  /** `implode($d, $pieces)`. */
  function Join(pieces: seq<string>, d: char): string {
    if |pieces| == 0 then ""
    else if |pieces| == 1 then pieces[0]
    else pieces[0] + [d] + Join(pieces[1..], d)
  }

  /** `explode($d, $s)` for a one-character delimiter: the pieces between
      consecutive delimiters, empty pieces included; there is always at
      least one piece. */
  function Split(s: string, d: char): (r: seq<string>)
    ensures |r| >= 1
    decreases |s|
  {
    if |s| == 0 then [""]
    else
      var rest := Split(s[1..], d);
      if s[0] == d then [""] + rest
      else
        assert s == [s[0]] + s[1..];
        [[s[0]] + rest[0]] + rest[1..]
  }

  /** `array_map('trim', $pieces)`. */
  function TrimEach(pieces: seq<string>): seq<string> {
    seq(|pieces|, i requires 0 <= i < |pieces| => Trim(pieces[i]))
  }
  // ---------------------------------------------------------------------
  // `explode` and `implode`

  /** `explode` of a string given by its first character and the rest. */
  lemma SplitCons(c: char, t: string, d: char)
    ensures Split([c] + t, d) ==
              if c == d then [""] + Split(t, d)
              else [[c] + Split(t, d)[0]] + Split(t, d)[1..]
  {
    var s := [c] + t;
    assert s[0] == c && s[1..] == t;
  }

  /** No piece of `explode` holds the delimiter. */
  lemma {:induction false} SplitPiecesFree(s: string, d: char)
    ensures forall i :: 0 <= i < |Split(s, d)| ==> d !in Split(s, d)[i]
    decreases |s|
  {
    if |s| > 0 {
      var t := s[1..];
      assert s == [s[0]] + t;
      SplitCons(s[0], t, d);
      SplitPiecesFree(t, d);
      var rest := Split(t, d);
      var pieces := Split(s, d);
      forall i | 0 <= i < |pieces| ensures d !in pieces[i] {
        if s[0] == d {
          if i > 0 {
            assert pieces[i] == rest[i - 1];
          }
        } else if i > 0 {
          assert pieces[i] == rest[i];
        } else {
          assert pieces[0] == [s[0]] + rest[0];
        }
      }
    }
  }

  /** `implode` undoes `explode`. */
  lemma {:induction false} SplitRoundTrip(s: string, d: char)
    ensures Join(Split(s, d), d) == s
    decreases |s|
  {
    if |s| > 0 {
      var t := s[1..];
      assert s == [s[0]] + t;
      SplitCons(s[0], t, d);
      SplitRoundTrip(t, d);
      var rest := Split(t, d);
      if s[0] == d {
        assert Join(Split(s, d), d) == "" + [d] + Join(rest, d);
      } else if |rest| == 1 {
        assert Join(Split(s, d), d) == [s[0]] + rest[0];
      } else {
        assert Join(rest, d) == rest[0] + [d] + Join(rest[1..], d);
        assert Join(Split(s, d), d) == [s[0]] + rest[0] + [d] + Join(rest[1..], d);
      }
    }
  }

  /** There is more than one piece exactly when the delimiter occurs;
      otherwise the one piece is the whole string. */
  lemma {:induction false} SplitSeveralIffDelimiter(s: string, d: char)
    ensures |Split(s, d)| > 1 <==> d in s
    ensures d !in s ==> Split(s, d) == [s]
    decreases |s|
  {
    if d !in s {
      SplitWithoutDelimiter(s, d);
    }
    if |s| > 0 {
      assert s == [s[0]] + s[1..];
      SplitCons(s[0], s[1..], d);
      SplitSeveralIffDelimiter(s[1..], d);
    }
  }

  /** A string without the delimiter explodes into itself alone. */
  lemma {:induction false} SplitWithoutDelimiter(s: string, d: char)
    requires d !in s
    ensures Split(s, d) == [s]
    decreases |s|
  {
    if |s| > 0 {
      assert s == [s[0]] + s[1..];
      SplitCons(s[0], s[1..], d);
      SplitWithoutDelimiter(s[1..], d);
    }
  }

  /** Concatenation of sequences is associative. Calling it names the
      regrouping a proof needs, which the solver may not find unaided. */
  lemma AppendAssoc<T>(p: seq<T>, q: seq<T>, r: seq<T>)
    ensures p + (q + r) == p + q + r
  {
  }

  /** The same for four parts, regrouped after the first. */
  lemma ConcatAssoc<T>(a: seq<T>, b: seq<T>, c: seq<T>, d: seq<T>)
    ensures a + b + c + d == a + (b + c + d)
  {
  }

  /** Prepending to the first piece of a concatenation of piece lists. */
  lemma PrependToFirst(x: string, r: seq<string>, q: seq<string>)
    requires |r| >= 1
    ensures [x + (r + q)[0]] + (r + q)[1..] == ([x + r[0]] + r[1..]) + q
  {
    assert (r + q)[0] == r[0];
    assert (r + q)[1..] == r[1..] + q;
  }

  /** A delimiter between two strings separates their pieces: exploding the
      whole is exploding each side. */
  lemma {:induction false} SplitAround(a: string, b: string, d: char)
    ensures Split(a + [d] + b, d) == Split(a, d) + Split(b, d)
    decreases |a|
  {
    if |a| == 0 {
      assert a + [d] + b == [d] + b;
      SplitCons(d, b, d);
    } else {
      var t := a[1..];
      assert a == [a[0]] + t;
      assert a + [d] + b == [a[0]] + (t + [d] + b);
      SplitCons(a[0], t + [d] + b, d);
      SplitCons(a[0], t, d);
      SplitAround(t, b, d);
      if a[0] != d {
        PrependToFirst([a[0]], Split(t, d), Split(b, d));
      } else {
        AppendAssoc([""], Split(t, d), Split(b, d));
      }
    }
  }

  /** `explode` inverts `implode` whenever no piece holds the delimiter. */
  lemma {:induction false} SplitJoin(pieces: seq<string>, d: char)
    requires |pieces| >= 1
    requires forall i :: 0 <= i < |pieces| ==> d !in pieces[i]
    ensures Split(Join(pieces, d), d) == pieces
    decreases |pieces|
  {
    SplitWithoutDelimiter(pieces[0], d);
    if |pieces| > 1 {
      SplitJoin(pieces[1..], d);
      SplitAround(pieces[0], Join(pieces[1..], d), d);
      assert [pieces[0]] + pieces[1..] == pieces;
    }
  }

  /** Text without the delimiter appended to a string lands in its last piece. */
  lemma {:induction false} SplitAppendToLast(x: string, w: string, d: char)
    requires d !in w
    ensures var px := Split(x, d);
            Split(x + w, d) == px[..|px| - 1] + [px[|px| - 1] + w]
    decreases |x|
  {
    if d !in x {
      SplitWithoutDelimiter(x, d);
      SplitWithoutDelimiter(x + w, d);
    } else {
      var k :| 0 <= k < |x| && x[k] == d;
      var a, b := x[..k], x[k + 1..];
      assert x == a + [d] + b;
      assert x + w == a + [d] + (b + w);
      SplitAround(a, b, d);
      SplitAround(a, b + w, d);
      SplitAppendToLast(b, w, d);
      var pa, pb := Split(a, d), Split(b, d);
      assert (pa + pb)[..|pa + pb| - 1] == pa + pb[..|pb| - 1];
    }
  }

  // ---------------------------------------------------------------------
  // `trim`

  /** Left-trimming a concatenation only reaches into the second part when
      the first part is all trim characters. */
  lemma {:induction false} TrimLeftConcat(x: string, y: string)
    ensures TrimLeft(x + y) == if TrimLeft(x) == [] then TrimLeft(y) else TrimLeft(x) + y
    decreases |x|
  {
    if |x| == 0 {
      assert x + y == y;
    } else {
      assert (x + y)[0] == x[0] && (x + y)[1..] == x[1..] + y;
      if IsTrimChar(x[0]) {
        TrimLeftConcat(x[1..], y);
      }
    }
  }

  /** Right-trimming a concatenation only reaches into the first part when
      the second part is all trim characters. */
  lemma {:induction false} TrimRightConcat(x: string, y: string)
    ensures TrimRight(x + y) == if TrimRight(y) == [] then TrimRight(x) else x + TrimRight(y)
    decreases |y|
  {
    if |y| == 0 {
      assert x + y == x;
    } else {
      var y' := y[..|y| - 1];
      assert (x + y)[..|x + y| - 1] == x + y' && (x + y)[|x + y| - 1] == y[|y| - 1];
      if IsTrimChar(y[|y| - 1]) {
        TrimRightConcat(x, y');
      }
    }
  }

  /** A string that starts with a non-trim character loses nothing on the left. */
  lemma TrimLeftStopsAt(c: char, t: string)
    requires !IsTrimChar(c)
    ensures TrimLeft([c] + t) == [c] + t
  {
    assert ([c] + t)[0] == c;
  }

  /** A string that ends with a non-trim character loses nothing on the right. */
  lemma TrimRightStopsAt(t: string, c: char)
    requires !IsTrimChar(c)
    ensures TrimRight(t + [c]) == t + [c]
  {
    assert (t + [c])[|t + [c]| - 1] == c;
  }

  /** `trim` is `rtrim` after `ltrim`; called to unfold it at one term. */
  lemma TrimIsBothSides(s: string)
    ensures Trim(s) == TrimRight(TrimLeft(s))
  {
  }

  /** Leading trim characters are all that `ltrim` removes from the front. */
  lemma TrimLeftSkipsLead(lead: string, x: string)
    requires AllTrimChars(lead)
    ensures TrimLeft(lead + x) == TrimLeft(x)
  {
    AllTrimCharsTrimAway(lead);
    TrimLeftConcat(lead, x);
  }

  /** `rtrim` stops at the last non-trim character: what precedes it is kept. */
  lemma TrimRightKeepsThrough(t: string, c: char, rest: string)
    requires !IsTrimChar(c)
    ensures TrimRight(t + [c] + rest) == t + [c] + TrimRight(rest)
  {
    TrimRightConcat(t + [c], rest);
    TrimRightStopsAt(t, c);
  }

  /** A string with no trim character at either end is its own `trim`. */
  lemma TrimKeepsTrimmed(s: string)
    requires s == [] || (!IsTrimChar(s[0]) && !IsTrimChar(s[|s| - 1]))
    ensures Trim(s) == s
  {
    if s != [] {
      assert s == [s[0]] + s[1..];
      TrimLeftStopsAt(s[0], s[1..]);
      assert s == s[..|s| - 1] + [s[|s| - 1]];
      TrimRightStopsAt(s[..|s| - 1], s[|s| - 1]);
    }
    TrimIsBothSides(s);
  }

  /** Trimming twice is trimming once. */
  lemma TrimIdempotent(s: string)
    ensures Trim(Trim(s)) == Trim(s)
  {
    TrimKeepsTrimmed(Trim(s));
  }

  /** A string made only of trim characters trims to nothing from either side. */
  lemma AllTrimCharsTrimAway(w: string)
    requires AllTrimChars(w)
    ensures TrimLeft(w) == [] && TrimRight(w) == []
  {
  }

  /** Trailing trim characters do not change the result of `trim`. */
  lemma TrimIgnoresTrailing(x: string, w: string)
    requires AllTrimChars(w)
    ensures Trim(x + w) == Trim(x)
  {
    AllTrimCharsTrimAway(w);
    TrimLeftConcat(x, w);
    var l := TrimLeft(x);
    if l == [] {
      assert TrimLeft(x + w) == [];
    } else {
      TrimRightConcat(l, w);
    }
  }

  /** `trim` never removes a character that is not a trim character. */
  lemma TrimKeeps(s: string, c: char)
    requires !IsTrimChar(c) && c in s
    ensures c in Trim(s)
  {
    var l := TrimLeft(s);
    TrimLeftDropsTrimChars(s);
    TrimRightDropsTrimChars(l);
    KeptBySuffix(s, l, c);
    KeptByPrefix(l, TrimRight(l), c);
  }

  lemma KeptBySuffix(s: string, l: string, c: char)
    requires |l| <= |s| && l == s[|s| - |l|..] && AllTrimChars(s[..|s| - |l|])
    requires !IsTrimChar(c) && c in s
    ensures c in l
  {
    var k :| 0 <= k < |s| && s[k] == c;
    assert l[k - (|s| - |l|)] == c;
  }

  lemma KeptByPrefix(l: string, r: string, c: char)
    requires |r| <= |l| && r == l[..|r|] && AllTrimChars(l[|r|..])
    requires !IsTrimChar(c) && c in l
    ensures c in r
  {
    var k :| 0 <= k < |l| && l[k] == c;
    assert r[k] == c;
  }
}
