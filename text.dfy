/**
 * The string primitives the flow-log engine relies on: Python's `str.strip()`,
 * `str.split()` (no separator), `str.lower()` and `<` on `str`, restricted to
 * ASCII characters.
 */
module Text {

  /** The ASCII characters `str.isspace()` accepts: space, \t \n \v \f \r and
      the information separators \x1c to \x1f. */
  predicate IsSpace(c: char) {
    c == ' ' || ('\t' <= c <= '\r') || ('\U{1C}' <= c <= '\U{1F}')
  }

  predicate NoSpace(s: string) {
    forall i :: 0 <= i < |s| ==> !IsSpace(s[i])
  }

  predicate AllSpace(s: string) {
    forall i :: 0 <= i < |s| ==> IsSpace(s[i])
  }

  // ---------------------------------------------------------------- strip

  /** The number of whitespace characters at the front of `s`. */
  function LeadingSpace(s: string): (n: nat)
    ensures n <= |s| && (n == |s| || !IsSpace(s[n]))
    ensures forall i :: 0 <= i < n ==> IsSpace(s[i])
  {
    if |s| > 0 && IsSpace(s[0]) then
      var n := 1 + LeadingSpace(s[1..]);
      assert forall i :: 1 <= i < n ==> s[i] == s[1..][i - 1];
      n
    else 0
  }

  /** The length of `s` without its trailing whitespace. */
  function TextEnd(s: string): (n: nat)
    ensures n <= |s| && (n == 0 || !IsSpace(s[n - 1]))
    ensures forall i :: n <= i < |s| ==> IsSpace(s[i])
  {
    if |s| > 0 && IsSpace(s[|s| - 1]) then TextEnd(s[..|s| - 1]) else |s|
  }

  /** `s.lstrip()`. */
  function TrimLeft(s: string): (r: string) {
    s[LeadingSpace(s)..]
  }

  /** `s.strip()`: `s` without its leading and trailing whitespace. */
  function Trim(s: string): (r: string)
    ensures r == [] <==> AllSpace(s)
    ensures r == [] || (!IsSpace(r[0]) && !IsSpace(r[|r| - 1]))
    ensures NoSpace(s) ==> r == s
  {
    var i, j := LeadingSpace(s), TextEnd(s);
    assert i < j || AllSpace(s) by {
      if !AllSpace(s) {
        var k :| 0 <= k < |s| && !IsSpace(s[k]);
        assert i <= k < j;
      }
    }
    assert NoSpace(s) && |s| > 0 ==> i == 0 && j == |s| by {
      if NoSpace(s) && |s| > 0 {
        assert !IsSpace(s[|s| - 1]);
      }
    }
    if i < j then s[i..j] else []
  }

  /** What `strip()` returns: the part of `s` between a whitespace prefix and
      a whitespace suffix (with `Trim`'s contract, the longest such part). */
  lemma TrimMiddle(s: string)
    ensures exists i, j :: 0 <= i <= j <= |s| && AllSpace(s[..i]) && AllSpace(s[j..]) && Trim(s) == s[i..j]
  {
    var i, j := LeadingSpace(s), TextEnd(s);
    if i < j {
      assert AllSpace(s[..i]) && AllSpace(s[j..]) && Trim(s) == s[i..j];
    } else {
      assert AllSpace(s[..0]) && AllSpace(s[0..]) && Trim(s) == s[0..0];
    }
  }

  /** A string with no whitespace at either end is its own strip. */
  lemma TrimUnpadded(s: string)
    requires s != [] && !IsSpace(s[0]) && !IsSpace(s[|s| - 1])
    ensures Trim(s) == s
  {
    assert LeadingSpace(s) == 0;
    assert TextEnd(s) == |s|;
    assert s[0..|s|] == s;
  }

  /** Stripping twice strips nothing more. */
  lemma TrimIdempotent(s: string)
    ensures Trim(Trim(s)) == Trim(s)
  {
    var t := Trim(s);
    if t != [] {
      assert LeadingSpace(t) == 0;
      assert TextEnd(t) == |t|;
      assert t[0..|t|] == t;
    }
  }

  // ---------------------------------------------------------------- lower

  predicate IsUpper(c: char) {
    'A' <= c <= 'Z'
  }

  function LowerChar(c: char): char {
    if IsUpper(c) then (c as int + 32) as char else c
  }

  /** `s.lower()` on ASCII. */
  function Lower(s: string): (r: string)
    ensures |r| == |s|
  {
    seq(|s|, i requires 0 <= i < |s| => LowerChar(s[i]))
  }

  /** `lower()` replaces every upper-case letter by its lower-case partner,
      keeps every other character, and leaves no upper-case letter. */
  lemma LowerSpec(s: string)
    ensures |Lower(s)| == |s|
    ensures forall i :: 0 <= i < |s| ==>
      var c, d := s[i], Lower(s)[i];
      !IsUpper(d) && (IsSpace(d) <==> IsSpace(c)) &&
      (if IsUpper(c) then d as int == c as int + 32 else d == c)
  {
  }

  /** A string without upper-case letters is its own lower-case form. */
  lemma LowerOfLower(s: string)
    requires forall i :: 0 <= i < |s| ==> !IsUpper(s[i])
    ensures Lower(s) == s
  {
    assert forall i :: 0 <= i < |s| ==> Lower(s)[i] == s[i];
  }

  // ---------------------------------------------------------------- split

  /** The longest run of non-whitespace characters at the front of `s`. */
  function Word(s: string): (w: string)
    ensures |w| <= |s| && w == s[..|w|] && NoSpace(w)
    ensures |w| == |s| || IsSpace(s[|w|])
  {
    if |s| == 0 || IsSpace(s[0]) then [] else [s[0]] + Word(s[1..])
  }

  /** Non-empty, whitespace-free fields, as `str.split()` produces them. */
  predicate IsWords(ws: seq<string>) {
    forall i :: 0 <= i < |ws| ==> |ws[i]| > 0 && NoSpace(ws[i])
  }

  lemma WordsCons(w: string, ws: seq<string>)
    requires |w| > 0 && NoSpace(w) && IsWords(ws)
    ensures IsWords([w] + ws)
  {
    assert forall i :: 1 <= i <= |ws| ==> ([w] + ws)[i] == ws[i - 1];
  }

  /** `s.split()`: the maximal runs of non-whitespace characters, in order. */
  function Split(s: string): seq<string>
    decreases |s|
  {
    var t := TrimLeft(s);
    if t == [] then []
    else
      var w := Word(t);
      [w] + Split(t[|w|..])
  }

  /** Every word `Split` returns is non-empty and free of whitespace. */
  lemma {:induction false} SplitWords(s: string)
    ensures IsWords(Split(s))
    decreases |s|
  {
    var t := TrimLeft(s);
    if t != [] {
      var w := Word(t);
      SplitWords(t[|w|..]);
      WordsCons(w, Split(t[|w|..]));
    }
  }

  /** Words joined by single spaces: the inverse of `Split` on well-formed words. */
  function JoinWords(ws: seq<string>): string {
    if |ws| == 0 then []
    else if |ws| == 1 then ws[0]
    else ws[0] + " " + JoinWords(ws[1..])
  }

  lemma {:induction false} JoinEdges(ws: seq<string>)
    requires IsWords(ws) && ws != []
    ensures var s := JoinWords(ws); s != [] && !IsSpace(s[0]) && !IsSpace(s[|s| - 1])
  {
    if |ws| > 1 {
      JoinEdges(ws[1..]);
      var rest := JoinWords(ws[1..]);
      assert JoinWords(ws) == ws[0] + " " + rest;
    }
  }

  lemma WordOfJoin(w: string, tail: string)
    requires w != [] && NoSpace(w)
    requires tail == [] || IsSpace(tail[0])
    ensures Word(w + tail) == w
    decreases |w|
  {
    var s := w + tail;
    assert s[0] == w[0] && !IsSpace(w[0]);
    assert s[1..] == w[1..] + tail;
    assert Word(s) == [w[0]] + Word(w[1..] + tail);
    if |w| > 1 {
      WordOfJoin(w[1..], tail);
    } else {
      assert w[1..] + tail == tail;
    }
    assert [w[0]] + w[1..] == w;
  }

  /** A leading space does not change the split of a word-initial string. */
  lemma SplitAfterSpace(rest: string)
    requires rest != [] && !IsSpace(rest[0])
    ensures Split(" " + rest) == Split(rest)
  {
    var s := " " + rest;
    assert s[1..] == rest;
    assert LeadingSpace(s) == 1;
    assert TrimLeft(s) == rest;
    assert LeadingSpace(rest) == 0;
    assert TrimLeft(rest) == rest[0..] == rest;
  }

  /** Splitting at the front word: the word, then the split of what follows it. */
  lemma SplitFront(w: string, tail: string)
    requires w != [] && NoSpace(w)
    requires tail == [] || IsSpace(tail[0])
    ensures Split(w + tail) == [w] + Split(tail)
  {
    var s := w + tail;
    assert LeadingSpace(s) == 0;
    assert TrimLeft(s) == s[0..] == s;
    WordOfJoin(w, tail);
    assert s[|w|..] == tail;
  }

  /** Splitting single-space-joined words gives the words back. */
  lemma {:induction false} SplitJoin(ws: seq<string>)
    requires IsWords(ws)
    ensures Split(JoinWords(ws)) == ws
  {
    if |ws| == 1 {
      var w := ws[0];
      assert [w] == ws;
      assert JoinWords(ws) == w;
      SplitFront(w, []);
      assert w + [] == w;
    } else if |ws| > 1 {
      var w, tail := ws[0], ws[1..];
      assert [w] + tail == ws;
      var rest := JoinWords(tail);
      assert JoinWords(ws) == w + (" " + rest);
      assert Split(w + (" " + rest)) == [w] + tail by {
        assert IsWords(tail);
        SplitJoin(tail);
        JoinEdges(tail);
        SplitAfterSpace(rest);
        SplitFront(w, " " + rest);
      }
    }
  }

  /** Stripping a single-space join of words changes nothing. */
  lemma TrimJoin(ws: seq<string>)
    requires IsWords(ws)
    ensures Trim(JoinWords(ws)) == JoinWords(ws)
  {
    if ws != [] {
      JoinEdges(ws);
      var s := JoinWords(ws);
      assert LeadingSpace(s) == 0;
      assert TextEnd(s) == |s|;
      assert s[0..|s|] == s;
    }
  }

  /** Leading whitespace adds nothing to the count of leading whitespace
      of what follows it. */
  lemma {:induction false} LeadingSpaceAfterGap(g: string, b: string)
    requires AllSpace(g)
    ensures LeadingSpace(g + b) == |g| + LeadingSpace(b)
    decreases |g|
  {
    if g != [] {
      assert (g + b)[1..] == g[1..] + b;
      LeadingSpaceAfterGap(g[1..], b);
    } else {
      assert g + b == b;
    }
  }

  /** Whitespace alone splits into no words. */
  lemma SplitOfSpace(g: string)
    requires AllSpace(g)
    ensures Split(g) == []
  {
    assert g + [] == g;
    LeadingSpaceAfterGap(g, []);
  }

  /** Whitespace in front of a string changes nothing in its split. */
  lemma SplitAfterGap(g: string, b: string)
    requires AllSpace(g)
    ensures Split(g + b) == Split(b)
  {
    LeadingSpaceAfterGap(g, b);
    assert TrimLeft(g + b) == TrimLeft(b);
  }

  /** A single word splits into itself. */
  lemma SplitWord(w: string)
    requires w != [] && NoSpace(w)
    ensures Split(w) == [w]
  {
    SplitFront(w, []);
    assert w + [] == w;
    SplitOfSpace([]);
  }

  /** Any non-empty run of whitespace separates: the words on each side of it
      are split apart, whatever the run is made of. */
  lemma {:induction false} SplitGap(a: string, g: string, b: string)
    requires AllSpace(g) && g != []
    ensures Split(a + g + b) == Split(a) + Split(b)
    decreases |a|, 2
  {
    var n := LeadingSpace(a);
    var p, t := a[..n], a[n..];
    assert a == p + t && AllSpace(p);
    assert a + g + b == p + (t + g + b);
    if t == [] {
      calc {
        Split(a + g + b);
        { SplitAfterGap(p, t + g + b); }
        Split(t + g + b);
        { assert t + g + b == g + b; }
        Split(g + b);
        { SplitAfterGap(g, b); }
        Split(b);
        { SplitAfterGap(p, t); SplitOfSpace(t); }
        Split(a) + Split(b);
      }
    } else {
      calc {
        Split(a + g + b);
        { SplitAfterGap(p, t + g + b); }
        Split(t + g + b);
        { SplitGapAtWord(t, g, b); }
        Split(t) + Split(b);
        { SplitAfterGap(p, t); }
        Split(a) + Split(b);
      }
    }
  }

  /** `SplitGap` for a string that starts with a word. */
  lemma {:induction false} SplitGapAtWord(t: string, g: string, b: string)
    requires AllSpace(g) && g != []
    requires t != [] && !IsSpace(t[0])
    ensures Split(t + g + b) == Split(t) + Split(b)
    decreases |t|, 1
  {
    var w := Word(t);
    var rest := t[|w|..];
    FrontWord(t);
    SplitGapAfterWord(w, rest, g, b);
  }

  /** `SplitGap` for a string that starts with a word `w`. */
  lemma {:induction false} SplitGapAfterWord(w: string, rest: string, g: string, b: string)
    requires AllSpace(g) && g != []
    requires w != [] && NoSpace(w) && (rest == [] || IsSpace(rest[0]))
    ensures Split(w + rest + g + b) == Split(w + rest) + Split(b)
    decreases |w| + |rest|, 0
  {
    FrontBeforeGap(w, rest, g, b);
    SplitGap(rest, g, b);
    SplitFront(w, rest);
    ConsAssoc(w, Split(rest), Split(b));
  }

  /** The word in front of a gap is split off first. */
  lemma FrontBeforeGap(w: string, rest: string, g: string, b: string)
    requires AllSpace(g) && g != []
    requires w != [] && NoSpace(w) && (rest == [] || IsSpace(rest[0]))
    ensures Split(w + rest + g + b) == [w] + Split(rest + g + b)
  {
    Regroup(w + rest, g, b, w, rest);
    GapFront(rest, g, b);
    SplitFront(w, rest + g + b);
  }

  lemma ConsAssoc(w: string, xs: seq<string>, ys: seq<string>)
    ensures [w] + (xs + ys) == ([w] + xs) + ys
  {
  }

  /** A string that starts with a word is that word, then what follows it. */
  lemma FrontWord(t: string)
    requires t != [] && !IsSpace(t[0])
    ensures var w := Word(t); var rest := t[|w|..];
      w != [] && t == w + rest && (rest == [] || IsSpace(rest[0]))
  {
  }

  lemma Regroup(t: string, g: string, b: string, w: string, rest: string)
    requires t == w + rest
    ensures t + g + b == w + (rest + g + b)
  {
  }

  /** After a word comes whitespace, or the gap itself. */
  lemma GapFront(rest: string, g: string, b: string)
    requires rest == [] || IsSpace(rest[0])
    requires AllSpace(g) && g != []
    ensures rest + g + b != [] && IsSpace((rest + g + b)[0])
  {
    if rest == [] {
      assert rest + g + b == g + b;
    }
  }

  /** `split()` already skips the whitespace `strip()` removes. */
  lemma StripBeforeSplit(s: string)
    ensures Split(Trim(s)) == Split(s)
  {
    var i, j := LeadingSpace(s), TextEnd(s);
    if i < j {
      Pieces(s, i, j);
      SpaceAround(s);
      SplitAround(s[..i], s[i..j], s[j..]);
    } else {
      SplitOfSpace(s);
    }
  }

  lemma Pieces(s: string, i: nat, j: nat)
    requires i <= j <= |s|
    ensures s == s[..i] + s[i..j] + s[j..]
  {
  }

  /** What `strip()` drops is whitespace. */
  lemma SpaceAround(s: string)
    ensures AllSpace(s[..LeadingSpace(s)]) && AllSpace(s[TextEnd(s)..])
  {
  }

  /** Whitespace on both sides of `mid` changes nothing in its split. */
  lemma SplitAround(pre: string, mid: string, post: string)
    requires AllSpace(pre) && AllSpace(post)
    ensures Split(pre + mid + post) == Split(mid)
  {
    calc {
      Split(pre + mid + post);
      { assert pre + mid + post == pre + (mid + post); SplitAfterGap(pre, mid + post); }
      Split(mid + post);
      { SplitOfSuffix(mid, post); }
      Split(mid);
    }
  }

  /** Trailing whitespace changes nothing in a split. */
  lemma SplitOfSuffix(a: string, g: string)
    requires AllSpace(g)
    ensures Split(a + g) == Split(a)
  {
    if g != [] {
      assert a + g + [] == a + g;
      SplitGap(a, g, []);
      SplitOfSpace([]);
      assert Split(a) + [] == Split(a);
    } else {
      assert a + g == a;
    }
  }

  /** The line end `for line in f` leaves on a line changes nothing in its split. */
  lemma SplitIgnoresLineEnd(s: string)
    ensures Split(s + "\n") == Split(s)
  {
    assert AllSpace("\n");
    SplitOfSuffix(s, "\n");
  }

  // ---------------------------------------------------------------- order

  /** Python's `<` on `str`: the first differing code point decides, and a
      proper prefix comes first. */
  predicate Less(a: string, b: string)
    decreases |a|
  {
    |b| > 0 && (|a| == 0 || a[0] < b[0] || (a[0] == b[0] && Less(a[1..], b[1..])))
  }

  lemma {:induction false} LessIrreflexive(a: string)
    ensures !Less(a, a)
    decreases |a|
  {
    if |a| > 0 { LessIrreflexive(a[1..]); }
  }

  lemma {:induction false} LessTransitive(a: string, b: string, c: string)
    requires Less(a, b) && Less(b, c)
    ensures Less(a, c)
    decreases |a|
  {
    if |a| > 0 && a[0] == b[0] && b[0] == c[0] {
      LessTransitive(a[1..], b[1..], c[1..]);
    }
  }

  lemma {:induction false} LessTotal(a: string, b: string)
    ensures a == b || Less(a, b) || Less(b, a)
    decreases |a|
  {
    if |a| > 0 && |b| > 0 && a[0] == b[0] {
      LessTotal(a[1..], b[1..]);
      if a[1..] == b[1..] {
        assert a == [a[0]] + a[1..] && b == [b[0]] + b[1..];
      }
    }
  }
}
