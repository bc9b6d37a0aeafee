/**
 The overlay page as an abstract list of text-drawing records (the drawing
 calls of `create_overlay` in app.py), and the whole decision pipeline of
 one page: page text -> fields -> layout and signature -> drawing records.
 */
module Overlay {

  import opened Text
  import opened NameLayout
  import opened Signature
  import opened Extraction

  datatype Font = Helvetica | TimesItalic

  /** One `drawString` call after `setFont(font, size)`. */
  datatype Draw = Draw(font: Font, size: real, x: int, y: int, text: string)

  /** Fixed positions on the A4 page (points, origin bottom-left). */
  const SubconX := 510
  const Line1Y := 742
  const Line2Y := 732
  const SignatureX := 520
  const SignatureY := 665
  const DateX := 500
  const DateY := 642
  const SignatureSize: real := 14.0
  const DateSize: real := 10.0

  /** The texts drawn in the subcontractor column, top line first. */
  function SubconLines(draws: seq<Draw>): seq<string>
  {
    if draws == [] then []
    else (if draws[0].x == SubconX then [draws[0].text] else []) + SubconLines(draws[1..])
  }

  /** The records of one overlay page: the subcontractor lines in the
      layout's font size, the second line only when it is not empty, then
      the signature name and the date. */
  function Compose(layout: Layout, name: string, date: string): (r: seq<Draw>)
    ensures |r| == if layout.line2 == "" then 3 else 4
    ensures Draw(Helvetica, layout.fontSize, SubconX, Line1Y, layout.line1) in r
    ensures layout.line2 != "" ==> Draw(Helvetica, layout.fontSize, SubconX, Line2Y, layout.line2) in r
    ensures forall d :: d in r && d.y == Line2Y ==> d.text != ""
    ensures (exists d :: d in r && d.y == Line2Y) <==> layout.line2 != ""
    ensures forall d :: d in r && d.x == SubconX ==> d.font == Helvetica && d.size == layout.fontSize
    ensures SubconLines(r) == if layout.line2 == "" then [layout.line1] else [layout.line1, layout.line2]
    ensures Draw(TimesItalic, SignatureSize, SignatureX, SignatureY, name) in r
    ensures Draw(Helvetica, DateSize, DateX, DateY, date) in r
  {
    var line1 := Draw(Helvetica, layout.fontSize, SubconX, Line1Y, layout.line1);
    var line2 := if layout.line2 != "" then [Draw(Helvetica, layout.fontSize, SubconX, Line2Y, layout.line2)] else [];
    var tail := [Draw(TimesItalic, SignatureSize, SignatureX, SignatureY, name),
                 Draw(Helvetica, DateSize, DateX, DateY, date)];
    var r := [line1] + line2 + tail;
    SubconLinesAppend([line1] + line2, tail);
    SubconLinesAppend([line1], line2);
    assert SubconLines(tail) == [] by {
      assert tail[1..][1..] == [];
    }
    assert layout.line2 != "" ==> r[1] == line2[0];
    assert forall d :: d in r ==> d == line1 || d in line2 || d in tail;
    r
  }

  lemma {:induction false} SubconLinesAppend(a: seq<Draw>, b: seq<Draw>)
    ensures SubconLines(a + b) == SubconLines(a) + SubconLines(b)
  {
    if a == [] {
      assert a + b == b;
    } else {
      assert (a + b)[1..] == a[1..] + b;
      SubconLinesAppend(a[1..], b);
    }
  }

  /** The lines drawn for a name, joined again, hold exactly the words of
      the name. */
  lemma DrawnLinesKeepWords(subcon: string)
    ensures var l := LayoutName(subcon);
            Split(Join(if l.line2 == "" then [l.line1] else [l.line1, l.line2])) == Split(subcon)
  {
    var l := LayoutName(subcon);
    LayoutKeepsWords(subcon);
    if l.line2 == "" {
      SplitTrailingSpace(l.line1);
      assert l.line1 + " " + l.line2 == l.line1 + " ";
    } else {
      assert Join([l.line1, l.line2]) == l.line1 + " " + l.line2;
    }
  }

  /** The overlay for one page of text and a date string. */
  function SignPage(text: string, date: string): (r: seq<Draw>)
    ensures var f := ExtractInfo(text);
            && Split(Join(SubconLines(r))) == Split(f.subcon)
            && (f.receiver != "" ==> Draw(TimesItalic, SignatureSize, SignatureX, SignatureY,
                                           Capitalize(Split(f.receiver)[0])) in r)
  {
    var f := ExtractInfo(text);
    DrawnLinesKeepWords(f.subcon);
    Compose(LayoutName(f.subcon), FirstName(f.receiver), date)
  }
}
