/**
 Field extraction from the text of the delivery note's first page
 (`extract_info` in app.py). The two regular expressions are modelled as
 explicit searches, and each is proved to return the match Python's
 backtracking engine would report:

   subcontractor  (?:Subon|Subcon):\s*(.*?)\s*Site Receiver:   IGNORECASE, DOTALL
   receiver       Site Receiver:\s*(.*?)(?:/|\d{8,})            IGNORECASE

 `re.search` tries start positions from left to right; at one start, the
 greedy `\s*` before the group is tried longest first and the lazy group
 shortest first. Among all ways the pattern can match, the reported one is
 therefore the least in the order `Precedes` below.
 */
module Extraction {

  import opened Optional
  import opened Text

  /** Labels, in lower case: matching is case-insensitive. */
  const SubonLabel := "subon:"
  const SubconLabel := "subcon:"
  const ReceiverLabel := "site receiver:"

  /** The sentinel the source uses for a field that was not found. */
  const Unknown := "Unknown"

  /** One way a pattern can match the text: the label occupies
      text[start..labelEnd], group 1 is text[capStart..capEnd], and the
      closing part of the pattern begins at `tail`. */
  datatype Match = Match(start: nat, labelEnd: nat, capStart: nat, capEnd: nat, tail: nat)

  /** The result of one field search. */
  datatype Field = Found(value: string) | NotFound {
    /** The string the source carries on: the value, or "Unknown". */
    function OrUnknown(): string {
      match this
      case Found(v) => v
      case NotFound => Unknown
    }
  }

  /** The two fields of one page, as the source returns them. */
  datatype Fields = Fields(subcon: string, receiver: string)

  /** The lower-case label `lit` occurs at position i, ignoring ASCII case. */
  predicate LabelAt(text: string, i: nat, lit: string) {
    i + |lit| <= |text| && LowerStr(text[i..i + |lit|]) == lit
  }

  /** No line break in text[lo..hi]: what `.` without DOTALL may consume. */
  predicate NoNewline(text: string, lo: nat, hi: nat)
    requires lo <= hi <= |text|
  {
    forall j :: lo <= j < hi ==> text[j] != '\n'
  }

  /** `(?:/|\d{8,})` can match at position i. */
  predicate TerminatorAt(text: string, i: nat) {
    (i < |text| && text[i] == '/')
    || (i + 8 <= |text| && forall j :: i <= j < i + 8 ==> IsDigit(text[j]))
  }

  predicate Ordered(m: Match, text: string) {
    m.start <= m.labelEnd <= m.capStart <= m.capEnd <= m.tail <= |text|
  }

  /** m is a way `(?:Subon|Subcon):\s*(.*?)\s*Site Receiver:` matches. */
  predicate IsSubconMatch(text: string, m: Match) {
    && Ordered(m, text)
    && ((m.labelEnd == m.start + 6 && LabelAt(text, m.start, SubonLabel))
        || (m.labelEnd == m.start + 7 && LabelAt(text, m.start, SubconLabel)))
    && SpaceRange(text, m.labelEnd, m.capStart)
    && SpaceRange(text, m.capEnd, m.tail)
    && LabelAt(text, m.tail, ReceiverLabel)
  }

  /** m is a way `Site Receiver:\s*(.*?)(?:/|\d{8,})` matches. */
  predicate IsReceiverMatch(text: string, m: Match) {
    && Ordered(m, text)
    && m.labelEnd == m.start + |ReceiverLabel|
    && LabelAt(text, m.start, ReceiverLabel)
    && SpaceRange(text, m.labelEnd, m.capStart)
    && NoNewline(text, m.capStart, m.capEnd)
    && m.tail == m.capEnd
    && TerminatorAt(text, m.capEnd)
  }

  /** The order in which the engine reaches matches: leftmost start first,
      then the longest leading `\s*`, then the shortest group. */
  predicate Precedes(a: Match, b: Match) {
    a.start < b.start
    || (a.start == b.start
        && (a.capStart > b.capStart || (a.capStart == b.capStart && a.capEnd <= b.capEnd)))
  }

  /** The match `re.search` reports for the subcontractor pattern. */
  ghost predicate IsFirstSubconMatch(text: string, m: Match) {
    IsSubconMatch(text, m) && forall m' :: IsSubconMatch(text, m') ==> Precedes(m, m')
  }

  /** The match `re.search` reports for the receiver pattern. */
  ghost predicate IsFirstReceiverMatch(text: string, m: Match) {
    IsReceiverMatch(text, m) && forall m' :: IsReceiverMatch(text, m') ==> Precedes(m, m')
  }

  // ---------------------------------------------------------------------
  // Searches
  // ---------------------------------------------------------------------

  /** The first position at or after `from` where the label occurs. */
  function FindLabel(text: string, from: nat, lit: string): (r: Option<nat>)
    requires from <= |text|
    ensures r.Some? ==> from <= r.value && LabelAt(text, r.value, lit)
    ensures r.Some? ==> forall j :: from <= j < r.value ==> !LabelAt(text, j, lit)
    ensures r.None? ==> forall j: nat :: from <= j ==> !LabelAt(text, j, lit)
    decreases |text| - from
  {
    if LabelAt(text, from, lit) then Some(from)
    else if from == |text| then None
    else FindLabel(text, from + 1, lit)
  }

  /** Where the `(?:Subon|Subcon):` alternation ends when tried at p. */
  function SubconLabelEnd(text: string, p: nat): (r: Option<nat>)
    ensures r.Some? <==> LabelAt(text, p, SubonLabel) || LabelAt(text, p, SubconLabel)
    ensures r.Some? ==> (r.value == p + 6 && LabelAt(text, p, SubonLabel))
                        || (r.value == p + 7 && LabelAt(text, p, SubconLabel))
  {
    if LabelAt(text, p, SubonLabel) then Some(p + 6)
    else if LabelAt(text, p, SubconLabel) then Some(p + 7)
    else None
  }

  /** The subcontractor pattern tried at start p: after the label, the
      greedy `\s*` takes the whole run of whitespace, the lazy group ends
      where the whitespace before the first following "Site Receiver:"
      begins, and the inner `\s*` takes that whitespace. */
  function SubconAt(text: string, p: nat): Option<Match>
    requires p <= |text|
  {
    match SubconLabelEnd(text, p)
    case None => None
    case Some(q) =>
      var s := q + SpaceRun(text, q);
      match FindLabel(text, s, ReceiverLabel)
      case None => None
      case Some(t) => Some(Match(p, q, s, SpaceStart(text, s, t), t))
  }

  /** The receiver pattern tried at start p: after the label, the greedy
      `\s*` takes the whole run of whitespace and the lazy group ends at the
      first terminator on the same line. */
  function ReceiverAt(text: string, p: nat): Option<Match>
    requires p <= |text|
  {
    if !LabelAt(text, p, ReceiverLabel) then None
    else
      var q := p + |ReceiverLabel|;
      var s := q + SpaceRun(text, q);
      match FindTerminator(text, s)
      case None => None
      case Some(e) => Some(Match(p, q, s, e, e))
  }

  /** The first terminator at or after i that is reached without crossing
      a line break. */
  function FindTerminator(text: string, i: nat): (r: Option<nat>)
    requires i <= |text|
    ensures r.Some? ==> i <= r.value <= |text| && TerminatorAt(text, r.value)
    ensures r.Some? ==> NoNewline(text, i, r.value)
    ensures r.Some? ==> forall j :: i <= j < r.value ==> !TerminatorAt(text, j)
    ensures r.None? ==> forall e :: i <= e <= |text| && NoNewline(text, i, e) ==> !TerminatorAt(text, e)
    decreases |text| - i
  {
    if TerminatorAt(text, i) then Some(i)
    else if i == |text| || text[i] == '\n' then None
    else FindTerminator(text, i + 1)
  }

  /** `re.search`: the pattern tried at p, p + 1, ... up to the end. */
  function SubconFrom(text: string, p: nat): Option<Match>
    requires p <= |text|
    decreases |text| - p
  {
    match SubconAt(text, p)
    case Some(m) => Some(m)
    case None => if p == |text| then None else SubconFrom(text, p + 1)
  }

  function ReceiverFrom(text: string, p: nat): Option<Match>
    requires p <= |text|
    decreases |text| - p
  {
    match ReceiverAt(text, p)
    case Some(m) => Some(m)
    case None => if p == |text| then None else ReceiverFrom(text, p + 1)
  }

  // ---------------------------------------------------------------------
  // The searches report the engine's match
  // ---------------------------------------------------------------------

  /** A label starting with 's' is not whitespace at its first position. */
  lemma LabelNotSpace(text: string, i: nat, lit: string)
    requires LabelAt(text, i, lit) && |lit| > 0 && lit[0] == 's'
    ensures i < |text| && !IsSpace(text[i])
  {
    assert Lower(text[i]) == LowerStr(text[i..i + |lit|])[0] == 's';
  }

  /** "subon:" and "subcon:" cannot both occur at one position, so the
      alternation has at most one way to match there. */
  lemma SubconLabelsExclusive(text: string, p: nat)
    requires LabelAt(text, p, SubonLabel)
    ensures !LabelAt(text, p, SubconLabel)
  {
    LabelChar(text, p, SubonLabel, 3);
    if LabelAt(text, p, SubconLabel) {
      LabelChar(text, p, SubconLabel, 3);
    }
  }

  /** Each character at a label's position is the label's character up to
      case. */
  lemma LabelChar(text: string, i: nat, lit: string, k: nat)
    requires LabelAt(text, i, lit) && k < |lit|
    ensures Lower(text[i + k]) == lit[k]
  {
    assert LowerStr(text[i..i + |lit|])[k] == Lower(text[i + k]);
  }

  /** Any subcontractor match starting at p has its label where
      SubconLabelEnd puts it, its group starting no later than the end of
      the whitespace after the label, and its closing label no earlier. */
  lemma SubconMatchShape(text: string, p: nat, q: nat, m: Match)
    requires q <= |text| && SubconLabelEnd(text, p) == Some(q)
    requires IsSubconMatch(text, m)
    ensures m.start == p ==>
              m.labelEnd == q && m.capStart <= q + SpaceRun(text, q) <= m.tail
  {
    if LabelAt(text, p, SubonLabel) {
      SubconLabelsExclusive(text, p);
    }
    LabelNotSpace(text, m.tail, ReceiverLabel);
  }

  /** Any receiver match starting at p has its group starting no later than
      the end of the whitespace after the label, and from there to the end
      of the group there is no line break. */
  lemma ReceiverMatchShape(text: string, p: nat, m: Match)
    requires p + |ReceiverLabel| <= |text|
    requires IsReceiverMatch(text, m)
    ensures var q := p + |ReceiverLabel|;
            var s := q + SpaceRun(text, q);
            m.start == p ==>
              m.capStart <= s <= m.capEnd && NoNewline(text, s, m.capEnd)
  {
    assert m.capEnd < |text| ==> !IsSpace(text[m.capEnd]);
  }

  /** SubconAt reports exactly the engine's choice among the matches that
      start at p, and nothing when none does. */
  lemma SubconAtBest(text: string, p: nat)
    requires p <= |text|
    ensures SubconAt(text, p).None? ==>
              forall m :: IsSubconMatch(text, m) ==> m.start != p
    ensures SubconAt(text, p).Some? ==>
              var m := SubconAt(text, p).value;
              IsSubconMatch(text, m) && m.start == p
              && forall m' :: IsSubconMatch(text, m') && m'.start == p ==> Precedes(m, m')
  {
    match SubconLabelEnd(text, p)
    case None =>
    case Some(q) =>
      var s := q + SpaceRun(text, q);
      forall m' | IsSubconMatch(text, m')
        ensures m'.start == p ==> m'.labelEnd == q && m'.capStart <= s <= m'.tail
      {
        SubconMatchShape(text, p, q, m');
      }
      match FindLabel(text, s, ReceiverLabel)
      case None =>
      case Some(t) =>
        SubconAtFound(text, p, q, s, t);
  }

  /** The match SubconAt builds precedes every other match at p. */
  lemma SubconAtFound(text: string, p: nat, q: nat, s: nat, t: nat)
    requires SubconLabelEnd(text, p) == Some(q)
    requires q <= |text| && s == q + SpaceRun(text, q)
    requires FindLabel(text, s, ReceiverLabel) == Some(t)
    requires forall m' :: IsSubconMatch(text, m') && m'.start == p ==> m'.capStart <= s <= m'.tail
    ensures var m := Match(p, q, s, SpaceStart(text, s, t), t);
            IsSubconMatch(text, m)
            && forall m' :: IsSubconMatch(text, m') && m'.start == p ==> Precedes(m, m')
  {
    var e := SpaceStart(text, s, t);
    var m := Match(p, q, s, e, t);
    forall m' | IsSubconMatch(text, m') && m'.start == p
      ensures Precedes(m, m')
    {
      assert t <= m'.tail;
      assert m'.capStart == s ==> e <= m'.capEnd;
    }
  }

  /** ReceiverAt reports exactly the engine's choice among the matches that
      start at p, and nothing when none does. */
  lemma ReceiverAtBest(text: string, p: nat)
    requires p <= |text|
    ensures ReceiverAt(text, p).None? ==>
              forall m :: IsReceiverMatch(text, m) ==> m.start != p
    ensures ReceiverAt(text, p).Some? ==>
              var m := ReceiverAt(text, p).value;
              IsReceiverMatch(text, m) && m.start == p
              && forall m' :: IsReceiverMatch(text, m') && m'.start == p ==> Precedes(m, m')
  {
    if LabelAt(text, p, ReceiverLabel) {
      var q := p + |ReceiverLabel|;
      var s := q + SpaceRun(text, q);
      forall m' | IsReceiverMatch(text, m')
        ensures m'.start == p ==> m'.capStart <= s <= m'.capEnd && NoNewline(text, s, m'.capEnd)
      {
        ReceiverMatchShape(text, p, m');
      }
    }
  }

  /** The subcontractor search from p reports the engine's match among
      those starting at p or later. */
  lemma {:induction false} SubconFromFirst(text: string, p: nat)
    requires p <= |text|
    ensures SubconFrom(text, p).None? ==>
              forall m :: IsSubconMatch(text, m) ==> m.start < p
    ensures SubconFrom(text, p).Some? ==>
              var m := SubconFrom(text, p).value;
              IsSubconMatch(text, m) && p <= m.start
              && forall m' :: IsSubconMatch(text, m') && p <= m'.start ==> Precedes(m, m')
    decreases |text| - p
  {
    SubconAtBest(text, p);
    if SubconAt(text, p).None? {
      if p < |text| {
        assert SubconFrom(text, p) == SubconFrom(text, p + 1);
        SubconFromFirst(text, p + 1);
        forall m | IsSubconMatch(text, m) && p <= m.start
          ensures p + 1 <= m.start
        {
        }
      } else {
        forall m | IsSubconMatch(text, m)
          ensures m.start < p
        {
          assert m.start <= |text|;
        }
      }
    } else {
      var m := SubconAt(text, p).value;
      forall m' | IsSubconMatch(text, m') && p <= m'.start
        ensures Precedes(m, m')
      {
      }
    }
  }

  /** The receiver search from p reports the engine's match among those
      starting at p or later. */
  lemma {:induction false} ReceiverFromFirst(text: string, p: nat)
    requires p <= |text|
    ensures ReceiverFrom(text, p).None? ==>
              forall m :: IsReceiverMatch(text, m) ==> m.start < p
    ensures ReceiverFrom(text, p).Some? ==>
              var m := ReceiverFrom(text, p).value;
              IsReceiverMatch(text, m) && p <= m.start
              && forall m' :: IsReceiverMatch(text, m') && p <= m'.start ==> Precedes(m, m')
    decreases |text| - p
  {
    ReceiverAtBest(text, p);
    if ReceiverAt(text, p).None? {
      if p < |text| {
        assert ReceiverFrom(text, p) == ReceiverFrom(text, p + 1);
        ReceiverFromFirst(text, p + 1);
        forall m | IsReceiverMatch(text, m) && p <= m.start
          ensures p + 1 <= m.start
        {
        }
      } else {
        forall m | IsReceiverMatch(text, m)
          ensures m.start < p
        {
          assert m.start <= |text|;
        }
      }
    } else {
      var m := ReceiverAt(text, p).value;
      forall m' | IsReceiverMatch(text, m') && p <= m'.start
        ensures Precedes(m, m')
      {
      }
    }
  }

  // ---------------------------------------------------------------------
  // The fields
  // ---------------------------------------------------------------------

  /** The engine's match is unique up to the parts the field does not
      use: two first matches capture the same span. */
  lemma FirstSubconCapture(text: string, a: Match, b: Match)
    requires IsFirstSubconMatch(text, a) && IsFirstSubconMatch(text, b)
    ensures a.capStart == b.capStart && a.capEnd == b.capEnd
  {
    assert Precedes(a, b) && Precedes(b, a);
  }

  lemma FirstReceiverCapture(text: string, a: Match, b: Match)
    requires IsFirstReceiverMatch(text, a) && IsFirstReceiverMatch(text, b)
    ensures a.capStart == b.capStart && a.capEnd == b.capEnd
  {
    assert Precedes(a, b) && Precedes(b, a);
  }

  /** The subcontractor search from the start of the text finds the
      engine's match whenever there is one. */
  lemma SubconSearchFirst(text: string)
    ensures SubconFrom(text, 0).None? <==> forall m :: !IsSubconMatch(text, m)
    ensures SubconFrom(text, 0).Some? ==> IsFirstSubconMatch(text, SubconFrom(text, 0).value)
  {
    SubconFromFirst(text, 0);
  }

  lemma ReceiverSearchFirst(text: string)
    ensures ReceiverFrom(text, 0).None? <==> forall m :: !IsReceiverMatch(text, m)
    ensures ReceiverFrom(text, 0).Some? ==> IsFirstReceiverMatch(text, ReceiverFrom(text, 0).value)
  {
    ReceiverFromFirst(text, 0);
  }

  /** The subcontractor group after `strip()` and `replace('\n', ' ')`:
      the same words, now on one line and without surrounding whitespace. */
  function CleanSubcon(capture: string): (r: string)
    ensures '\n' !in r
    ensures IsStripped(r)
    ensures Split(r) == Split(capture)
  {
    ReplaceNewlinesStripped(Strip(capture));
    SplitReplaceNewlines(Strip(capture));
    SplitStrip(capture);
    ReplaceNewlines(Strip(capture))
  }

  /** The subcontractor field: NotFound exactly when the pattern cannot
      match; otherwise the cleaned group of the engine's match. */
  function ExtractSubcon(text: string): (r: Field)
    ensures r.NotFound? <==> forall m :: !IsSubconMatch(text, m)
    ensures forall m :: IsFirstSubconMatch(text, m)
              ==> r == Found(CleanSubcon(text[m.capStart..m.capEnd]))
    ensures r.Found? ==> '\n' !in r.value && IsStripped(r.value)
  {
    SubconSearchFirst(text);
    match SubconFrom(text, 0)
    case None => NotFound
    case Some(m) =>
      var r := Found(CleanSubcon(text[m.capStart..m.capEnd]));
      assert forall m' :: IsFirstSubconMatch(text, m')
               ==> r == Found(CleanSubcon(text[m'.capStart..m'.capEnd])) by {
        forall m' | IsFirstSubconMatch(text, m')
          ensures r == Found(CleanSubcon(text[m'.capStart..m'.capEnd]))
        {
          FirstSubconCapture(text, m, m');
        }
      }
      r
  }

  /** The receiver's shortest group holds no '/' (an earlier '/' would end
      a shorter group) and no line break. */
  lemma FirstReceiverCaptureClean(text: string, m: Match)
    requires IsFirstReceiverMatch(text, m)
    ensures '/' !in text[m.capStart..m.capEnd] && '\n' !in text[m.capStart..m.capEnd]
  {
    var capture := text[m.capStart..m.capEnd];
    forall j | 0 <= j < |capture|
      ensures capture[j] != '/' && capture[j] != '\n'
    {
      var k := m.capStart + j;
      var shorter := Match(m.start, m.labelEnd, m.capStart, k, k);
      assert text[k] == '/' ==> IsReceiverMatch(text, shorter);
    }
  }

  /** The receiver field: NotFound exactly when the pattern cannot match;
      otherwise the stripped group of the engine's match, which holds
      neither a '/' nor a line break. */
  function ExtractReceiver(text: string): (r: Field)
    ensures r.NotFound? <==> forall m :: !IsReceiverMatch(text, m)
    ensures forall m :: IsFirstReceiverMatch(text, m)
              ==> r == Found(Strip(text[m.capStart..m.capEnd]))
    ensures r.Found? ==> '/' !in r.value && '\n' !in r.value && IsStripped(r.value)
  {
    ReceiverSearchFirst(text);
    match ReceiverFrom(text, 0)
    case None => NotFound
    case Some(m) =>
      var r := Found(Strip(text[m.capStart..m.capEnd]));
      FirstReceiverCaptureClean(text, m);
      assert forall m' :: IsFirstReceiverMatch(text, m')
               ==> r == Found(Strip(text[m'.capStart..m'.capEnd])) by {
        forall m' | IsFirstReceiverMatch(text, m')
          ensures r == Found(Strip(text[m'.capStart..m'.capEnd]))
        {
          FirstReceiverCapture(text, m, m');
        }
      }
      r
  }

  /** The two fields of one page, with "Unknown" for a missed field. */
  function ExtractInfo(text: string): (r: Fields)
    ensures (forall m :: !IsSubconMatch(text, m)) ==> r.subcon == Unknown
    ensures forall m :: IsFirstSubconMatch(text, m)
              ==> r.subcon == CleanSubcon(text[m.capStart..m.capEnd])
    ensures (forall m :: !IsReceiverMatch(text, m)) ==> r.receiver == Unknown
    ensures forall m :: IsFirstReceiverMatch(text, m)
              ==> r.receiver == Strip(text[m.capStart..m.capEnd])
    ensures '\n' !in r.subcon && IsStripped(r.subcon)
    ensures '/' !in r.receiver && '\n' !in r.receiver && IsStripped(r.receiver)
  {
    UnknownIsClean();
    Fields(ExtractSubcon(text).OrUnknown(), ExtractReceiver(text).OrUnknown())
  }

  lemma UnknownIsClean()
    ensures '\n' !in Unknown && '/' !in Unknown && IsStripped(Unknown)
  {
  }
}
