/**
 The receiver's signature: the first word of the receiver's name,
 capitalized, as the overlay writes it in the signature field.
 */
module Signature {

  import opened Text

  /** Equal up to ASCII case. */
  predicate SameIgnoringCase(a: string, b: string) {
    LowerStr(a) == LowerStr(b)
  }

  /** In capitalized form: the first character is not a lower-case letter
      and no later character is an upper-case letter. */
  predicate IsCapitalized(s: string) {
    (s == [] || !IsLowerLetter(s[0]))
    && forall i :: 1 <= i < |s| ==> !IsUpperLetter(s[i])
  }

  /** Python's `w.capitalize()` on ASCII. */
  function Capitalize(w: string): (r: string)
    ensures |r| == |w|
    ensures SameIgnoringCase(r, w)
    ensures IsCapitalized(r)
  {
    if w == [] then [] else [Upper(w[0])] + LowerStr(w[1..])
  }

  /** Capitalize picks the only capitalized spelling of a word: any string
      equal to w up to case and in capitalized form is Capitalize(w). */
  lemma CapitalizeUnique(w: string, x: string)
    requires SameIgnoringCase(x, w) && IsCapitalized(x)
    ensures x == Capitalize(w)
  {
    var c := Capitalize(w);
    assert |x| == |w|;
    forall i | 0 <= i < |x|
      ensures x[i] == c[i]
    {
      assert Lower(x[i]) == LowerStr(x)[i] == LowerStr(w)[i] == Lower(w[i]);
      assert Lower(c[i]) == LowerStr(c)[i] == LowerStr(w)[i];
    }
  }

  /** The receiver has a first word whenever it is not empty; the source
      relies on this when it takes `split()[0]`, and the stripped extraction
      result guarantees it. */
  predicate HasFirstWord(receiver: string) {
    receiver != "" ==> Split(receiver) != []
  }

  /** The signature name: the capitalized first word of the receiver, or
      the empty string for an empty receiver. */
  function FirstName(receiver: string): (r: string)
    requires HasFirstWord(receiver)
    ensures r == "" <==> receiver == ""
    ensures receiver != "" ==> SameIgnoringCase(r, Split(receiver)[0]) && IsCapitalized(r)
    ensures receiver != "" ==> IsWord(r)
  {
    if receiver == "" then ""
    else
      SplitWords(receiver);
      var w := Split(receiver)[0];
      var r := Capitalize(w);
      assert IsWord(r) by {
        forall j | 0 <= j < |r|
          ensures !IsSpace(r[j])
        {
          assert Lower(r[j]) == LowerStr(r)[j] == LowerStr(w)[j] == Lower(w[j]);
        }
      }
      r
  }
}
