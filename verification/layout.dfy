/**
 How the subcontractor name is laid out across the two-line region of the
 overlay (the first part of `create_overlay` in app.py): where the name
 is split into two lines, and which font size is used.
 */
module NameLayout {

  import opened Optional
  import opened Text

  /** A line of the overlay is at most this many characters before the
      layout shortens it or shrinks the font. */
  const MaxLine := 30

  const Marker := "SDN"
  const Brand := "UNIVERSAL CELLULAR"
  const NormalSize: real := 6.0
  const SmallSize: real := 4.5

  /** The result of the layout: the two lines (line2 possibly empty) and the
      font size they are drawn in. */
  datatype Layout = Layout(line1: string, line2: string, fontSize: real)

  /** How the words are arranged: the name kept verbatim on one line, or the
      words divided between two lines. */
  datatype Arrangement = Verbatim | Lines(first: seq<string>, second: seq<string>)

  /** The word holds the split marker "SDN" in any case. */
  predicate HasMarker(w: string) {
    Contains(UpperStr(w), Marker)
  }

  /** The index of the first word holding the marker, as the `for ... break`
      loop finds it; None stands for the source's -1. */
  function FindMarker(words: seq<string>): (r: Option<nat>)
    ensures r.Some? ==> r.value < |words|
  {
    if words == [] then None
    else if HasMarker(words[0]) then Some(0)
    else match FindMarker(words[1..])
      case None => None
      case Some(i) => Some(i + 1)
  }

  /** FindMarker finds the first marker word, and reports none exactly when
      no word holds the marker. */
  lemma {:induction false} FindMarkerFirst(words: seq<string>)
    ensures var r := FindMarker(words);
            && (r.Some? ==> HasMarker(words[r.value]))
            && (r.Some? ==> forall j :: 0 <= j < r.value ==> !HasMarker(words[j]))
            && (r.None? <==> forall j :: 0 <= j < |words| ==> !HasMarker(words[j]))
  {
    if words != [] && !HasMarker(words[0]) {
      FindMarkerFirst(words[1..]);
      assert forall j :: 1 <= j < |words| ==> words[j] == words[1..][j - 1];
    }
  }

  /** The condition that ends the rebalancing loop: the joined first line
      fits, or it holds at most one word. */
  predicate Settled(l1: seq<string>) {
    |Join(l1)| <= MaxLine || |l1| <= 1
  }

  /** The rebalancing loop: while the joined first line is too long and has
      more than one word, its last word moves to the front of the second
      line. The first line that results is the longest prefix of the
      original first line at which the loop stops. */
  function Rebalance(l1: seq<string>, l2: seq<string>): (r: (seq<string>, seq<string>))
    ensures r.0 + r.1 == l1 + l2
    ensures |r.0| <= |l1| && r.0 == l1[..|r.0|]
    ensures r.1 == l1[|r.0|..] + l2
    ensures Settled(r.0)
    ensures forall k :: |r.0| < k <= |l1| ==> !Settled(l1[..k])
    ensures l1 != [] ==> r.0 != []
    decreases |l1|
  {
    if Settled(l1) then (l1, l2)
    else
      var last := |l1| - 1;
      var r := Rebalance(l1[..last], [l1[last]] + l2);
      RebalanceStep(l1, l2, r.0, r.1);
      r
  }

  /** One iteration of the rebalancing loop keeps its promises: what holds
      after moving the last word of l1 holds for l1 itself. */
  lemma RebalanceStep(l1: seq<string>, l2: seq<string>, a: seq<string>, b: seq<string>)
    requires !Settled(l1)
    requires var init := l1[..|l1| - 1];
             && a + b == init + ([l1[|l1| - 1]] + l2)
             && |a| <= |init| && a == init[..|a|]
             && b == init[|a|..] + ([l1[|l1| - 1]] + l2)
             && (forall k :: |a| < k <= |init| ==> !Settled(init[..k]))
    ensures a + b == l1 + l2
    ensures |a| <= |l1| && a == l1[..|a|]
    ensures b == l1[|a|..] + l2
    ensures forall k :: |a| < k <= |l1| ==> !Settled(l1[..k])
  {
    var last := |l1| - 1;
    var init := l1[..last];
    assert l1 == init + [l1[last]];
    assert init[..|a|] == l1[..|a|];
    assert init[|a|..] + [l1[last]] == l1[|a|..];
    forall k | |a| < k <= |l1|
      ensures !Settled(l1[..k])
    {
      if k < |l1| {
        assert init[..k] == l1[..k];
      } else {
        assert l1[..k] == l1;
      }
    }
  }

  /** Index at which a name without the marker is cut: `n // 2 + 1`. */
  function Middle(n: nat): nat {
    n / 2 + 1
  }

  /** The word-level decision of the layout. */
  function Arrange(words: seq<string>): (r: Arrangement)
    ensures r.Verbatim? ==> FindMarker(words).None? && |words| <= 2
    ensures r.Lines? ==> (FindMarker(words).Some? || |words| > 2)
                         && r.first + r.second == words && r.second != []
  {
    var found := FindMarker(words);
    if found.Some? then
      var i := found.value;
      var r := Rebalance(words[..i], words[i..]);
      assert r.0 + r.1 == words by {
        assert words[..i] + words[i..] == words;
      }
      Lines(r.0, r.1)
    else if |words| > 2 then
      var mid := Middle(|words|);
      assert words[..mid] + words[mid..] == words;
      Lines(words[..mid], words[mid..])
    else Verbatim
  }

  /** The name contains the brand name in any case. */
  predicate HasBrand(subcon: string) {
    Contains(UpperStr(subcon), Brand)
  }

  /** The font is shrunk for the brand name and for an over-long first line. */
  function FontSize(subcon: string, line1: string): real
  {
    if HasBrand(subcon) || |line1| > MaxLine then SmallSize else NormalSize
  }

  /** The layout of one subcontractor name. */
  function LayoutName(subcon: string): (r: Layout)
    // A name of at most two words and without the marker stays verbatim on
    // the first line; every other name gets a non-empty second line.
    ensures FindMarker(Split(subcon)).None? && |Split(subcon)| <= 2
            ==> r.line1 == subcon && r.line2 == ""
    ensures r.line2 == "" <==> FindMarker(Split(subcon)).None? && |Split(subcon)| <= 2
    ensures r.fontSize == SmallSize || r.fontSize == NormalSize
    ensures r.fontSize == SmallSize <==> HasBrand(subcon) || |r.line1| > MaxLine
  {
    var words := Split(subcon);
    SplitWords(subcon);
    match Arrange(words)
    case Verbatim =>
      Layout(subcon, "", FontSize(subcon, subcon))
    case Lines(a, b) =>
      ArrangedWords(words);
      JoinNonEmpty(b);
      Layout(Join(a), Join(b), FontSize(subcon, Join(a)))
  }

  /** Both parts of an arrangement of split words are word lists. */
  lemma ArrangedWords(words: seq<string>)
    requires AllWords(words)
    ensures Arrange(words).Lines? ==> AllWords(Arrange(words).first)
    ensures Arrange(words).Lines? ==> AllWords(Arrange(words).second)
  {
    var r := Arrange(words);
    if r.Lines? {
      AllWordsAppend(r.first, r.second);
    }
  }

  /** The layout's lines split back into the words they were made of. */
  lemma LayoutLineWords(subcon: string)
    ensures var r := LayoutName(subcon);
            match Arrange(Split(subcon))
            case Verbatim => r.line1 == subcon && r.line2 == ""
            case Lines(a, b) => Split(r.line1) == a && Split(r.line2) == b
  {
    var words := Split(subcon);
    SplitWords(subcon);
    ArrangedWords(words);
    if Arrange(words).Lines? {
      SplitJoin(Arrange(words).first);
      SplitJoin(Arrange(words).second);
    }
  }

  /** No word is lost, invented or reordered: the two lines together hold
      exactly the words of the name. */
  lemma LayoutKeepsWords(subcon: string)
    ensures var r := LayoutName(subcon);
            Split(r.line1 + " " + r.line2) == Split(subcon)
  {
    var words := Split(subcon);
    SplitWords(subcon);
    var r := LayoutName(subcon);
    match Arrange(words)
    case Verbatim =>
      SplitTrailingSpace(subcon);
      assert subcon + " " + "" == subcon + " ";
    case Lines(a, b) =>
      ArrangedWords(words);
      SplitJoinPair(a, b);
  }

  /** Arrange at a marker word i: the first part is the longest prefix of
      the words before the marker at which the rebalancing stops, and the
      second part ends with the marker word and everything after it. */
  lemma ArrangeAtMarker(words: seq<string>, i: nat)
    requires FindMarker(words) == Some(i)
    ensures Arrange(words).Lines?
    ensures var a := Arrange(words).first;
            && Settled(a)
            && |a| <= i && a == words[..|a|]
            && (forall k :: |a| < k <= i ==> !Settled(words[..k]))
            && (i == 0 <==> a == [])
    ensures var b := Arrange(words).second;
            |b| >= |words| - i && b[|b| - (|words| - i)..] == words[i..]
  {
    var r := Rebalance(words[..i], words[i..]);
    assert Arrange(words) == Lines(r.0, r.1);
    RebalancePrefix(words, i);
  }

  lemma RebalancePrefix(words: seq<string>, i: nat)
    requires i <= |words|
    ensures var r := Rebalance(words[..i], words[i..]);
            && |r.0| <= i && r.0 == words[..|r.0|]
            && (forall k :: |r.0| < k <= i ==> !Settled(words[..k]))
            && (i == 0 <==> r.0 == [])
            && |r.1| >= |words| - i && r.1[|r.1| - (|words| - i)..] == words[i..]
  {
    var r := Rebalance(words[..i], words[i..]);
    assert r.0 == words[..|r.0|] && |r.0| <= i by {
      assert words[..i][..|r.0|] == words[..|r.0|];
    }
    assert forall k :: |r.0| < k <= i ==> !Settled(words[..k]) by {
      forall k | |r.0| < k <= i
        ensures !Settled(words[..k])
      {
        assert words[..i][..k] == words[..k];
      }
    }
    assert r.1[|r.1| - (|words| - i)..] == words[i..];
  }

  /** With a marker word at index i, the first line holds the longest
      prefix of the words before the marker at which the rebalancing stops,
      and the second line ends with the marker word and everything after
      it; a marker in the first word leaves the first line empty and puts
      the whole name on the second. Each line is its words joined by
      single spaces. */
  lemma LayoutAtMarker(subcon: string, i: nat)
    requires FindMarker(Split(subcon)) == Some(i)
    ensures var r := LayoutName(subcon);
            var words := Split(subcon);
            var a := Split(r.line1);
            var b := Split(r.line2);
            && a + b == words
            && |a| <= i && a == words[..|a|]
            && |b| >= |words| - i && b[|b| - (|words| - i)..] == words[i..]
            && Settled(a)
            && (forall k :: |a| < k <= i ==> !Settled(words[..k]))
            && r.line1 == Join(a) && r.line2 == Join(b)
            && (i == 0 <==> r.line1 == "")
            && (i == 0 ==> r.line2 == Join(words))
  {
    var words := Split(subcon);
    SplitWords(subcon);
    LayoutLineWords(subcon);
    ArrangedWords(words);
    ArrangeAtMarker(words, i);
    var a := Arrange(words).first;
    if a != [] {
      JoinNonEmpty(a);
    } else {
      assert Arrange(words).second == words;
    }
  }

  /** Without a marker and with more than two words, the first line holds
      the first `n // 2 + 1` words and the second line the rest, which is
      never empty and never longer than the first; each line is its words
      joined by single spaces. */
  lemma LayoutAtMiddle(subcon: string)
    requires FindMarker(Split(subcon)).None? && |Split(subcon)| > 2
    ensures var r := LayoutName(subcon);
            var words := Split(subcon);
            var a := Split(r.line1);
            var b := Split(r.line2);
            && a == words[..Middle(|words|)]
            && b == words[Middle(|words|)..]
            && r.line1 == Join(words[..Middle(|words|)])
            && r.line2 == Join(words[Middle(|words|)..])
            && 0 < |b| <= |a|
  {
    LayoutLineWords(subcon);
  }

  /** The first line is empty only for an empty name or a leading marker
      word. */
  lemma LayoutFirstLineEmpty(subcon: string)
    ensures LayoutName(subcon).line1 == ""
            <==> subcon == "" || FindMarker(Split(subcon)) == Some(0)
  {
    var words := Split(subcon);
    SplitWords(subcon);
    ArrangedWords(words);
    match Arrange(words)
    case Verbatim =>
      if subcon != "" {
        assert Split(subcon) == [] || FindMarker(words) != Some(0);
      }
    case Lines(a, b) =>
      if a != [] {
        JoinNonEmpty(a);
      }
      assert subcon != "" by {
        assert words != [];
      }
  }

  /** With a marker word, the rebalancing keeps the first line within 30
      characters unless it is a single word; so without the brand name the
      small font is used only for a single over-long word before the
      marker. */
  lemma MarkerLongLineIsOneWord(subcon: string, i: nat)
    requires FindMarker(Split(subcon)) == Some(i)
    ensures var r := LayoutName(subcon);
            |r.line1| > MaxLine ==> |Split(r.line1)| == 1
    ensures var r := LayoutName(subcon);
            !HasBrand(subcon) ==>
              (r.fontSize == SmallSize <==> |Split(r.line1)| == 1 && |r.line1| > MaxLine)
  {
    var words := Split(subcon);
    SplitWords(subcon);
    ArrangeAtMarker(words, i);
    LayoutLineWords(subcon);
    LayoutAtMarker(subcon, i);
    var r := LayoutName(subcon);
    assert r.line1 == Join(Split(r.line1));
  }
}
