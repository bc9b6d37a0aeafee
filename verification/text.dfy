/**
 Text primitives with the meaning Python's `str` methods give them
 (`isspace`, `upper`, `lower`, `split`, `" ".join`, `strip`, `in`),
 restricted to ASCII: characters outside ASCII are never whitespace and
 have no case.
 */
module Text {

  /** Python's whitespace, shared by `str.split`, `str.strip` and the regex
      class `\s`, restricted to ASCII: space, \t, \n, \v, \f, \r and the
      four separators \x1c..\x1f. */
  predicate IsSpace(c: char) {
    c == ' ' || c == '\t' || c == '\n' || c == '\r'
    || c == '\U{000B}' || c == '\U{000C}'
    || ('\U{001C}' <= c <= '\U{001F}')
  }

  /** The regex class `\d`, restricted to ASCII. */
  predicate IsDigit(c: char) {
    '0' <= c <= '9'
  }

  predicate IsUpperLetter(c: char) {
    'A' <= c <= 'Z'
  }

  predicate IsLowerLetter(c: char) {
    'a' <= c <= 'z'
  }

  function Lower(c: char): (r: char)
    ensures !IsUpperLetter(r)
    ensures IsUpperLetter(c) ==> IsLowerLetter(r) && r as int == c as int + 32
    ensures !IsUpperLetter(c) ==> r == c
  {
    if IsUpperLetter(c) then (c as int + 32) as char else c
  }

  function Upper(c: char): (r: char)
    ensures !IsLowerLetter(r)
    ensures IsLowerLetter(c) ==> IsUpperLetter(r) && r as int == c as int - 32
    ensures !IsLowerLetter(c) ==> r == c
  {
    if IsLowerLetter(c) then (c as int - 32) as char else c
  }

  /** `s.lower()` on ASCII. */
  function LowerStr(s: string): (r: string)
    ensures |r| == |s|
    ensures forall i :: 0 <= i < |s| ==> r[i] == Lower(s[i])
  {
    seq(|s|, i requires 0 <= i < |s| => Lower(s[i]))
  }

  /** `s.upper()` on ASCII. */
  function UpperStr(s: string): (r: string)
    ensures |r| == |s|
    ensures forall i :: 0 <= i < |s| ==> r[i] == Upper(s[i])
  {
    seq(|s|, i requires 0 <= i < |s| => Upper(s[i]))
  }

  predicate OccursAt(s: string, pat: string, i: int) {
    0 <= i && i + |pat| <= |s| && s[i..i + |pat|] == pat
  }

  /** Python's substring test `pat in s`. */
  predicate Contains(s: string, pat: string) {
    exists i | 0 <= i <= |s| - |pat| :: OccursAt(s, pat, i)
  }

  /** Every character of text[lo..hi] is whitespace. */
  predicate SpaceRange(text: string, lo: nat, hi: nat)
    requires lo <= hi <= |text|
  {
    forall j :: lo <= j < hi ==> IsSpace(text[j])
  }

  /** Length of the longest run of whitespace that starts at position i:
      how far a greedy `\s*` reaches. */
  function SpaceRun(text: string, i: nat): (n: nat)
    requires i <= |text|
    ensures i + n <= |text|
    ensures SpaceRange(text, i, i + n)
    ensures i + n == |text| || !IsSpace(text[i + n])
    decreases |text| - i
  {
    if i < |text| && IsSpace(text[i]) then 1 + SpaceRun(text, i + 1) else 0
  }

  /** Where the run of whitespace that ends at `hi` begins, not looking
      before `lo`. */
  function SpaceStart(text: string, lo: nat, hi: nat): (e: nat)
    requires lo <= hi <= |text|
    ensures lo <= e <= hi
    ensures SpaceRange(text, e, hi)
    ensures e == lo || !IsSpace(text[e - 1])
    decreases hi
  {
    if lo < hi && IsSpace(text[hi - 1]) then SpaceStart(text, lo, hi - 1) else hi
  }

  /** A word of `str.split()`: a non-empty run of non-whitespace. */
  predicate IsWord(w: string) {
    |w| > 0 && forall j :: 0 <= j < |w| ==> !IsSpace(w[j])
  }

  predicate AllWords(ws: seq<string>) {
    forall i :: 0 <= i < |ws| ==> IsWord(ws[i])
  }

  lemma AllWordsAppend(a: seq<string>, b: seq<string>)
    ensures AllWords(a + b) <==> AllWords(a) && AllWords(b)
  {
    var ab := a + b;
    assert forall i :: 0 <= i < |a| ==> ab[i] == a[i];
    assert forall i :: 0 <= i < |b| ==> ab[|a| + i] == b[i];
  }

  /** Number of leading non-whitespace characters of s. */
  function WordPrefixLen(s: string): (n: nat)
    ensures n <= |s|
    ensures forall j :: 0 <= j < n ==> !IsSpace(s[j])
    ensures n == |s| || IsSpace(s[n])
  {
    if s != [] && !IsSpace(s[0]) then 1 + WordPrefixLen(s[1..]) else 0
  }

  /** Python's `s.split()` with no separator: the maximal runs of
      non-whitespace, in order. */
  function Split(s: string): seq<string>
    decreases |s|
  {
    if s == [] then []
    else if IsSpace(s[0]) then Split(s[1..])
    else
      var n := WordPrefixLen(s);
      [s[..n]] + Split(s[n..])
  }

  /** Python's `" ".join(ws)`. */
  function Join(ws: seq<string>): string
  {
    if |ws| == 0 then ""
    else if |ws| == 1 then ws[0]
    else ws[0] + " " + Join(ws[1..])
  }

  /** `s.lstrip()`: s without its leading whitespace. */
  function TrimLeft(s: string): (r: string)
    ensures |r| <= |s| && r == s[|s| - |r|..]
    ensures forall j :: 0 <= j < |s| - |r| ==> IsSpace(s[j])
    ensures r == [] || !IsSpace(r[0])
  {
    if s != [] && IsSpace(s[0]) then TrimLeft(s[1..]) else s
  }

  /** `s.rstrip()`: s without its trailing whitespace. */
  function TrimRight(s: string): (r: string)
    ensures |r| <= |s| && r == s[..|r|]
    ensures forall j :: |r| <= j < |s| ==> IsSpace(s[j])
    ensures r == [] || !IsSpace(r[|r| - 1])
  {
    if s != [] && IsSpace(s[|s| - 1]) then TrimRight(s[..|s| - 1]) else s
  }

  /** No leading and no trailing whitespace. */
  predicate IsStripped(s: string) {
    s == [] || (!IsSpace(s[0]) && !IsSpace(s[|s| - 1]))
  }

  /** `s.strip()`: the infix of s left after removing the whitespace at
      both ends. */
  function Strip(s: string): (r: string)
    ensures IsStripped(r)
    ensures exists i :: 0 <= i <= |s| - |r| && r == s[i..i + |r|]
                        && SpaceRange(s, 0, i) && SpaceRange(s, i + |r|, |s|)
  {
    var l := TrimLeft(s);
    var r := TrimRight(l);
    var i := |s| - |l|;
    assert r == s[i..i + |r|];
    assert SpaceRange(s, 0, i);
    assert SpaceRange(s, i + |r|, |s|) by {
      forall j | i + |r| <= j < |s|
        ensures IsSpace(s[j])
      {
        assert s[j] == l[j - i];
      }
    }
    r
  }

  /** Only one infix of s is stripped and bounded by whitespace on both
      sides: the result of Strip. */
  lemma StripUnique(s: string, i: nat, t: string)
    requires i + |t| <= |s| && t == s[i..i + |t|] && IsStripped(t)
    requires SpaceRange(s, 0, i) && SpaceRange(s, i + |t|, |s|)
    ensures t == Strip(s)
  {
    var l := TrimLeft(s);
    var k := |s| - |l|;
    assert l != [] ==> l[0] == s[k] && !IsSpace(s[k]);
    if t == [] {
      assert SpaceRange(s, 0, |s|);
    } else {
      assert !IsSpace(s[i]);
      assert k == i;
      var r := TrimRight(l);
      assert t == l[..|t|];
    }
  }

  /** `s.replace('\n', ' ')`. */
  function ReplaceNewlines(s: string): (r: string)
    ensures |r| == |s|
    ensures '\n' !in r
    ensures forall i :: 0 <= i < |s| && s[i] == '\n' ==> r[i] == ' '
    ensures forall i :: 0 <= i < |s| && s[i] != '\n' ==> r[i] == s[i]
  {
    seq(|s|, i requires 0 <= i < |s| => if s[i] == '\n' then ' ' else s[i])
  }

  /** Split yields words only, and at least one when the text starts with
      a non-whitespace character. */
  lemma {:induction false} SplitWords(s: string)
    ensures AllWords(Split(s))
    ensures s != [] && !IsSpace(s[0]) ==> Split(s) != []
    decreases |s|
  {
    if s == [] {
    } else if IsSpace(s[0]) {
      SplitWords(s[1..]);
    } else {
      var n := WordPrefixLen(s);
      SplitWords(s[n..]);
      var r := Split(s);
      assert r == [s[..n]] + Split(s[n..]);
      assert IsWord(s[..n]);
      forall i | 0 <= i < |r|
        ensures IsWord(r[i])
      {
        if i > 0 {
          assert r[i] == Split(s[n..])[i - 1];
        }
      }
    }
  }

  /** Replacing line breaks by spaces keeps a stripped string stripped:
      its ends are not line breaks. */
  lemma ReplaceNewlinesStripped(s: string)
    requires IsStripped(s)
    ensures IsStripped(ReplaceNewlines(s))
  {
    if s != [] {
      var r := ReplaceNewlines(s);
      assert r[0] == s[0];
      assert r[|r| - 1] == s[|s| - 1];
    }
  }

  // ---------------------------------------------------------------------
  // Split and Join are inverses on word lists
  // ---------------------------------------------------------------------

  lemma {:induction false} WordPrefixLenAppend(x: string, y: string)
    ensures WordPrefixLen(x + y)
            == if WordPrefixLen(x) < |x| then WordPrefixLen(x) else |x| + WordPrefixLen(y)
    decreases |x|
  {
    if x == [] {
      assert x + y == y;
    } else if IsSpace(x[0]) {
    } else {
      assert (x + y)[1..] == x[1..] + y;
      WordPrefixLenAppend(x[1..], y);
    }
  }

  /** One unfolding of Split at a word start. */
  lemma SplitAtWord(s: string)
    requires s != [] && !IsSpace(s[0])
    ensures Split(s) == [s[..WordPrefixLen(s)]] + Split(s[WordPrefixLen(s)..])
  {
  }

  /** Whitespace at the seam splits the text into independent halves. */
  lemma {:induction false} SplitAppend(x: string, y: string)
    requires x == [] || y == [] || IsSpace(x[|x| - 1]) || IsSpace(y[0])
    ensures Split(x + y) == Split(x) + Split(y)
    decreases |x|
  {
    if x == [] {
      assert x + y == y;
    } else if y == [] {
      assert x + y == x;
    } else if IsSpace(x[0]) {
      SplitAppend(x[1..], y);
      SplitAppendSpaceHead(x, y);
    } else if WordPrefixLen(x) < |x| {
      SplitAppend(x[WordPrefixLen(x)..], y);
      SplitAppendWordHead(x, y);
    } else {
      SplitAppendWholeWord(x, y);
    }
  }

  /** The step of SplitAppend when x starts with whitespace. */
  lemma SplitAppendSpaceHead(x: string, y: string)
    requires x != [] && IsSpace(x[0])
    requires Split(x[1..] + y) == Split(x[1..]) + Split(y)
    ensures Split(x + y) == Split(x) + Split(y)
  {
    var xy := x + y;
    assert xy[0] == x[0];
    assert xy[1..] == x[1..] + y;
  }

  /** The step of SplitAppend when x starts with a word that ends inside x. */
  lemma SplitAppendWordHead(x: string, y: string)
    requires x != [] && !IsSpace(x[0]) && WordPrefixLen(x) < |x|
    requires Split(x[WordPrefixLen(x)..] + y) == Split(x[WordPrefixLen(x)..]) + Split(y)
    ensures Split(x + y) == Split(x) + Split(y)
  {
    var xy := x + y;
    var k := WordPrefixLen(x);
    WordPrefixLenAppend(x, y);
    assert xy[0] == x[0];
    assert WordPrefixLen(xy) == k;
    var rest := x[k..];
    assert xy[..k] == x[..k];
    assert xy[k..] == rest + y;
    SplitAtWord(xy);
    SplitAtWord(x);
    var w := [x[..k]];
    assert Split(xy) == w + Split(rest + y);
    assert Split(x) == w + Split(rest);
    assert w + (Split(rest) + Split(y)) == (w + Split(rest)) + Split(y);
  }

  /** The step of SplitAppend when x is one word and y starts with whitespace. */
  lemma SplitAppendWholeWord(x: string, y: string)
    requires x != [] && y != [] && IsSpace(y[0])
    requires !IsSpace(x[0]) && WordPrefixLen(x) == |x|
    ensures Split(x + y) == Split(x) + Split(y)
  {
    var xy := x + y;
    WordPrefixLenAppend(x, y);
    assert xy[0] == x[0];
    SplitAtWord(xy);
    SplitAtWord(x);
    assert xy[..|x|] == x[..|x|];
    assert xy[|x|..] == y;
    assert x[|x|..] == [];
  }

  lemma SplitWord(w: string)
    requires IsWord(w)
    ensures Split(w) == [w]
  {
    WordPrefixLenAppend(w, []);
    assert w + [] == w;
    assert w[..|w|] == w;
  }

  /** Splitting a single-space join of words gives the words back. */
  lemma {:induction false} SplitJoin(ws: seq<string>)
    requires AllWords(ws)
    ensures Split(Join(ws)) == ws
  {
    if |ws| == 0 {
    } else if |ws| == 1 {
      SplitWord(ws[0]);
    } else {
      var w := ws[0];
      SplitAppend(w, " ");
      SplitAppend(w + " ", Join(ws[1..]));
      SplitWord(w);
      assert Split(" ") == [];
      SplitJoin(ws[1..]);
      assert ws == [w] + ws[1..];
    }
  }

  /** Joining two word lists with one extra space in between loses and
      invents no word. */
  lemma SplitJoinPair(a: seq<string>, b: seq<string>)
    requires AllWords(a) && AllWords(b)
    ensures Split(Join(a) + " " + Join(b)) == a + b
  {
    var ja, jb := Join(a), Join(b);
    SplitTrailingSpace(ja);
    SplitAppend(ja + " ", jb);
    SplitJoin(a);
    SplitJoin(b);
  }

  /** A trailing space adds no word. */
  lemma SplitTrailingSpace(s: string)
    ensures Split(s + " ") == Split(s)
  {
    SplitAppend(s, " ");
    assert Split(" ") == [];
  }

  /** A text of whitespace only has no words. */
  lemma {:induction false} SplitAllSpace(s: string)
    requires SpaceRange(s, 0, |s|)
    ensures Split(s) == []
    decreases |s|
  {
    if s != [] {
      SplitAllSpace(s[1..]);
    }
  }

  /** Split only looks at where the whitespace is: two texts with
      whitespace at the same places and the same other characters have the
      same words. */
  lemma {:induction false} SplitSameSpaces(s: string, t: string)
    requires |s| == |t|
    requires forall i :: 0 <= i < |s| ==> (IsSpace(s[i]) <==> IsSpace(t[i]))
    requires forall i :: 0 <= i < |s| && !IsSpace(s[i]) ==> s[i] == t[i]
    ensures Split(s) == Split(t)
    decreases |s|
  {
    if s == [] {
    } else if IsSpace(s[0]) {
      SplitSameSpaces(s[1..], t[1..]);
    } else {
      var n := WordPrefixLen(s);
      assert n == WordPrefixLen(t);
      assert s[..n] == t[..n];
      SplitSameSpaces(s[n..], t[n..]);
    }
  }

  /** `strip()` adds and removes no word. */
  lemma SplitStrip(s: string)
    ensures Split(Strip(s)) == Split(s)
  {
    SplitTrimLeft(s);
    SplitTrimRight(TrimLeft(s));
  }

  lemma SplitTrimLeft(s: string)
    ensures Split(TrimLeft(s)) == Split(s)
  {
    var l := TrimLeft(s);
    var x := s[..|s| - |l|];
    assert s == x + l;
    SplitAllSpace(x);
    SplitAppend(x, l);
  }

  lemma SplitTrimRight(s: string)
    ensures Split(TrimRight(s)) == Split(s)
  {
    var r := TrimRight(s);
    var y := s[|r|..];
    assert s == r + y;
    SplitAllSpace(y);
    SplitAppend(r, y);
  }

  /** Turning line breaks into spaces adds and removes no word. */
  lemma SplitReplaceNewlines(s: string)
    ensures Split(ReplaceNewlines(s)) == Split(s)
  {
    SplitSameSpaces(ReplaceNewlines(s), s);
  }

  lemma JoinNonEmpty(ws: seq<string>)
    requires AllWords(ws) && ws != []
    ensures Join(ws) != ""
  {
    SplitJoin(ws);
  }
}
