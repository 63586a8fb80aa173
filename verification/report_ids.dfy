/** `new_report_id(prefix)`: the prefix followed by six characters drawn from the upper-case
    letters and the digits. The random draws are a parameter: `picks[i]` is the index of the
    character `secrets.choice` returned for the i-th position. */
module ReportIds {

  const Alphabet: string := "ABCDEFGHIJKLMNOPQRSTUVWXYZ0123456789"
  const SuffixLength: nat := 6

  predicate InAlphabet(c: char) {
    'A' <= c <= 'Z' || '0' <= c <= '9'
  }

  predicate ValidPicks(picks: seq<nat>) {
    |picks| == SuffixLength && forall i :: 0 <= i < |picks| ==> picks[i] < |Alphabet|
  }

  lemma AlphabetChars()
    ensures |Alphabet| == 36
    ensures forall k :: 0 <= k < 26 ==> Alphabet[k] == ('A' as int + k) as char
    ensures forall k :: 26 <= k < 36 ==> Alphabet[k] == ('0' as int + k - 26) as char
  {
  }

  function Suffix(picks: seq<nat>): (r: string)
    requires forall i :: 0 <= i < |picks| ==> picks[i] < |Alphabet|
    ensures |r| == |picks|
    ensures forall i :: 0 <= i < |r| ==> r[i] == Alphabet[picks[i]]
  {
    if |picks| == 0 then "" else [Alphabet[picks[0]]] + Suffix(picks[1..])
  }

  function NewReportId(prefix: string, picks: seq<nat>): (r: string)
    requires ValidPicks(picks)
    ensures |r| == |prefix| + SuffixLength
    ensures r[..|prefix|] == prefix
    ensures forall i :: |prefix| <= i < |r| ==> InAlphabet(r[i])
  {
    AlphabetChars();
    prefix + Suffix(picks)
  }

  /** The index of an alphabet character, the inverse of `Alphabet[_]`. */
  function AlphabetIndex(c: char): (k: nat)
    requires InAlphabet(c)
    ensures k < |Alphabet| && Alphabet[k] == c
  {
    AlphabetChars();
    if 'A' <= c <= 'Z' then c as int - 'A' as int else c as int - '0' as int + 26
  }

  function PicksOf(suffix: string): (picks: seq<nat>)
    requires forall i :: 0 <= i < |suffix| ==> InAlphabet(suffix[i])
    ensures |picks| == |suffix|
    ensures forall i :: 0 <= i < |picks| ==> picks[i] < |Alphabet| && Alphabet[picks[i]] == suffix[i]
  {
    if |suffix| == 0 then [] else [AlphabetIndex(suffix[0])] + PicksOf(suffix[1..])
  }

  /** Every id of the stated shape can be drawn: the id space is exactly prefix plus six alphabet
      characters. */
  lemma EveryShapedIdIsDrawable(prefix: string, suffix: string)
    requires |suffix| == SuffixLength && forall i :: 0 <= i < |suffix| ==> InAlphabet(suffix[i])
    ensures ValidPicks(PicksOf(suffix))
    ensures NewReportId(prefix, PicksOf(suffix)) == prefix + suffix
  {
    assert Suffix(PicksOf(suffix)) == suffix;
  }

  /** With the two-character prefixes of the report endpoints the id is eight characters long,
      which is the width of the `report_id` column. */
  lemma TwoCharPrefixGivesEightChars(prefix: string, picks: seq<nat>)
    requires |prefix| == 2 && ValidPicks(picks)
    ensures |NewReportId(prefix, picks)| == 8
  {
  }
}
