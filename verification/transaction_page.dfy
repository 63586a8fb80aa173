/** The payment form's input handlers: the card number is reduced to its digits and shown in groups
    of four, the expiry date as `MM/YY`, the CVV as at most three digits. Each handler receives the
    field's current value and the text just typed and returns the field's next value. */
module TransactionPage {
  import opened Text

  /** JavaScript `s.replace(/(.{4})/g, '$1 ')` on a string without line terminators: a space after
      every complete run of four characters, the last one included. */
  function SpaceAfterFours(d: string): (r: string)
    ensures |r| == |d| + |d| / 4
  {
    if |d| < 4 then d else d[..4] + " " + SpaceAfterFours(d[4..])
  }

  /** Groups of four separated by single spaces, nothing after the last group. */
  function Grouped(d: string): string
  {
    if |d| <= 4 then d else d[..4] + " " + Grouped(d[4..])
  }

  /** What a formatted card number looks like: a space at every fifth position, a digit everywhere
      else, and never a space at the end. */
  predicate CardLayout(s: string) {
    (forall i :: 0 <= i < |s| ==> if i % 5 == 4 then s[i] == ' ' else IsDigit(s[i]))
    && (|s| == 0 || |s| % 5 != 0)
  }

  /** The text with every ' ' removed. */
  function RemoveSpaces(s: string): (r: string)
    ensures |r| <= |s|
  {
    if |s| == 0 then "" else (if s[0] == ' ' then "" else [s[0]]) + RemoveSpaces(s[1..])
  }

  lemma RemoveSpacesAppend(a: string, b: string)
    ensures RemoveSpaces(a + b) == RemoveSpaces(a) + RemoveSpaces(b)
  {
    if |a| > 0 {
      assert (a + b)[1..] == a[1..] + b;
      RemoveSpacesAppend(a[1..], b);
    } else {
      assert a + b == b;
    }
  }

  lemma RemoveSpacesOfDigits(s: string)
    requires AllDigits(s)
    ensures RemoveSpaces(s) == s
  {
    if |s| > 0 {
      RemoveSpacesOfDigits(s[1..]);
    }
  }

  /** Before trimming, the grouped digits carry one trailing space exactly when the number of digits
      is a positive multiple of four. */
  lemma {:induction false} SpaceAfterFoursShape(d: string)
    ensures SpaceAfterFours(d) == Grouped(d) + (if |d| > 0 && |d| % 4 == 0 then " " else "")
  {
    if |d| > 4 {
      var rest := d[4..];
      SpaceAfterFoursShape(rest);
      var t := if |rest| > 0 && |rest| % 4 == 0 then " " else "";
      assert |rest| % 4 == |d| % 4;
      calc {
        SpaceAfterFours(d);
        d[..4] + " " + SpaceAfterFours(rest);
        d[..4] + " " + (Grouped(rest) + t);
        { assert d[..4] + " " + (Grouped(rest) + t) == (d[..4] + " " + Grouped(rest)) + t; }
        Grouped(d) + t;
      }
    } else if |d| == 4 {
      assert SpaceAfterFours(d) == d + " " + SpaceAfterFours(d[4..]);
      assert SpaceAfterFours(d[4..]) == "";
    }
  }

  /** The grouped digits are laid out as a card number, with one space per complete group of four
      that is followed by more digits. */
  lemma {:induction false} GroupedLayout(d: string)
    requires AllDigits(d)
    ensures CardLayout(Grouped(d))
    ensures |Grouped(d)| == if |d| == 0 then 0 else |d| + (|d| - 1) / 4
  {
    if |d| > 4 {
      var rest := d[4..];
      GroupedLayout(rest);
      var g := Grouped(d);
      var g' := Grouped(rest);
      assert g == d[..4] + " " + g';
      forall i | 0 <= i < |g|
        ensures if i % 5 == 4 then g[i] == ' ' else IsDigit(g[i])
      {
        if i >= 5 {
          assert g[i] == g'[i - 5];
          assert (i - 5) % 5 == i % 5;
        }
      }
    }
  }

  /** The grouped digits give back the digits, whether spaces or all non-digits are removed. */
  lemma GroupedDigits(d: string)
    requires AllDigits(d)
    ensures RemoveSpaces(Grouped(d)) == d
    ensures DigitsOnly(Grouped(d)) == d
  {
    GroupedWithoutSpaces(d);
    GroupedDigitsOnly(d);
  }

  lemma {:induction false} GroupedWithoutSpaces(d: string)
    requires AllDigits(d)
    ensures RemoveSpaces(Grouped(d)) == d
  {
    if |d| > 4 {
      var rest := d[4..];
      GroupedWithoutSpaces(rest);
      assert Grouped(d) == d[..4] + (" " + Grouped(rest));
      RemoveSpacesAppend(d[..4], " " + Grouped(rest));
      RemoveSpacesAppend(" ", Grouped(rest));
      RemoveSpacesOfDigits(d[..4]);
      assert RemoveSpaces(" ") == "";
      assert d == d[..4] + rest;
    } else {
      RemoveSpacesOfDigits(d);
    }
  }

  lemma {:induction false} GroupedDigitsOnly(d: string)
    requires AllDigits(d)
    ensures DigitsOnly(Grouped(d)) == d
  {
    if |d| > 4 {
      var rest := d[4..];
      GroupedDigitsOnly(rest);
      assert Grouped(d) == d[..4] + (" " + Grouped(rest));
      RemoveSpacesOfDigits(d[..4]);
      DigitsOnlyAppend(d[..4], " " + Grouped(rest));
      DigitsOnlyAppend(" ", Grouped(rest));
      assert DigitsOnly(" ") == "";
      assert d == d[..4] + rest;
    } else {
      RemoveSpacesOfDigits(d);
    }
  }

  /** JavaScript's trim() removes exactly the trailing space the regular expression leaves. */
  lemma TrimSpacedDigits(d: string)
    requires AllDigits(d)
    ensures JsTrim(SpaceAfterFours(d)) == Grouped(d)
  {
    SpaceAfterFoursShape(d);
    GroupedLayout(d);
    TrimLayout(Grouped(d), if |d| > 0 && |d| % 4 == 0 then " " else "");
  }

  /** A card layout, followed by at most one space, trims to the layout itself. */
  lemma TrimLayout(g: string, t: string)
    requires CardLayout(g) && (t == "" || (t == " " && |g| > 0))
    ensures JsTrim(g + t) == g
  {
    var s := g + t;
    if |g| > 0 {
      assert IsDigit(g[0]) && IsDigit(g[|g| - 1]);
      assert !JsIsSpace(s[0]);
      var a := StripStart(s, JsIsSpace);
      assert a == s;
      assert !JsIsSpace(g[|g| - 1]);
      if t == " " {
        assert s[..|s| - 1] == g;
      }
      assert StripEnd(g, JsIsSpace) == g;
    }
  }

  /** `formatCardNumber`: the digits of the input, in groups of four. Removing the spaces gives back
      exactly the digits typed, and the result has at most 19 characters exactly when at most 16
      digits were typed. */
  function FormatCardNumber(v: string): (r: string)
    ensures CardLayout(r)
    ensures RemoveSpaces(r) == DigitsOnly(v)
    ensures |r| <= 19 <==> |DigitsOnly(v)| <= 16
  {
    var d := DigitsOnly(v);
    TrimSpacedDigits(d);
    GroupedLayout(d);
    GroupedDigits(d);
    JsTrim(SpaceAfterFours(d))
  }

  /** A card-number layout is determined by its digits: it is the grouping of what remains once the
      spaces are removed. */
  lemma {:induction false} CardLayoutIsGrouped(s: string)
    requires CardLayout(s)
    ensures s == Grouped(RemoveSpaces(s))
  {
    if |s| <= 4 {
      assert AllDigits(s);
      RemoveSpacesOfDigits(s);
    } else {
      var tail := s[5..];
      CardLayoutTail(s);
      CardLayoutIsGrouped(tail);
      RemoveSpacesOfLayout(s);
      var d := RemoveSpaces(s);
      assert RemoveSpaces(tail)[0] == tail[0];
      assert d[..4] == s[..4] && d[4..] == RemoveSpaces(tail);
      assert s == s[..4] + " " + tail;
    }
  }

  /** After the first group and its space, the rest of a card layout is a card layout. */
  lemma CardLayoutTail(s: string)
    requires CardLayout(s) && |s| > 4
    ensures |s| > 5 && s[4] == ' ' && AllDigits(s[..4]) && CardLayout(s[5..])
  {
    assert s[4] == ' ' && |s| != 5;
    var tail := s[5..];
    forall i | 0 <= i < |tail|
      ensures if i % 5 == 4 then tail[i] == ' ' else IsDigit(tail[i])
    {
      assert tail[i] == s[i + 5];
      assert (i + 5) % 5 == i % 5;
    }
  }

  /** Removing the spaces of a card layout keeps its first group and drops the space after it. */
  lemma RemoveSpacesOfLayout(s: string)
    requires |s| > 5 && s[4] == ' ' && AllDigits(s[..4])
    ensures RemoveSpaces(s) == s[..4] + RemoveSpaces(s[5..])
  {
    var tail := s[5..];
    assert s == s[..4] + (" " + tail);
    RemoveSpacesAppend(s[..4], " " + tail);
    RemoveSpacesAppend(" ", tail);
    RemoveSpacesOfDigits(s[..4]);
    assert RemoveSpaces(" ") == "";
  }

  /** The formatting is the only card-number layout of the typed digits. */
  lemma FormatIsOnlyLayout(v: string, s: string)
    requires CardLayout(s) && RemoveSpaces(s) == DigitsOnly(v)
    ensures s == FormatCardNumber(v)
  {
    CardLayoutIsGrouped(s);
    CardLayoutIsGrouped(FormatCardNumber(v));
  }

  /** Formatting an already formatted card number changes nothing. */
  lemma FormatCardNumberIdempotent(v: string)
    ensures FormatCardNumber(FormatCardNumber(v)) == FormatCardNumber(v)
  {
    var d := DigitsOnly(v);
    TrimSpacedDigits(d);
    GroupedDigits(d);
  }

  /** `handleCardNumberChange`: the field takes the formatted input when it has at most 16 digits
      and otherwise keeps its value. */
  function CardNumberChange(current: string, typed: string): (r: string)
    ensures |DigitsOnly(typed)| <= 16 ==> r == FormatCardNumber(typed)
    ensures |DigitsOnly(typed)| > 16 ==> r == current
  {
    var formatted := FormatCardNumber(typed);
    if |formatted| <= 19 then formatted else current
  }

  /** A valid card-number field stays valid whatever is typed. */
  lemma CardNumberFieldStaysValid(current: string, typed: string)
    requires CardLayout(current) && |RemoveSpaces(current)| <= 16
    ensures CardLayout(CardNumberChange(current, typed))
    ensures |RemoveSpaces(CardNumberChange(current, typed))| <= 16
  {
  }

  /** The expiry text built from typed digits, before the length check. */
  function ExpiryText(d: string): string
  {
    if |d| > 2 then d[..2] + "/" + Take(d[2..], 2) else d
  }

  /** The expiry text keeps the first four digits, with a '/' between the second and the third. */
  lemma ExpiryTextShape(d: string)
    requires AllDigits(d)
    ensures |ExpiryText(d)| <= 5
    ensures DigitsOnly(ExpiryText(d)) == Take(d, 4)
    ensures |d| > 2 ==>
              ExpiryText(d)[2] == '/' && ExpiryText(d)[..2] == d[..2] && ExpiryText(d)[3..] == Take(d[2..], 2)
  {
    ExpiryDigits(d);
  }

  lemma ExpiryDigits(d: string)
    requires AllDigits(d)
    ensures DigitsOnly(ExpiryText(d)) == Take(d, 4)
  {
    if |d| > 2 {
      var k := if |d| <= 4 then |d| else 4;
      var t := Take(d[2..], 2);
      assert t == d[2..k];
      assert ExpiryText(d) == d[..2] + ("/" + t);
      DigitsOnlyAppend(d[..2], "/" + t);
      DigitsOnlyAppend("/", t);
      assert DigitsOnly("/") == "";
      assert AllDigits(d[..2]) && AllDigits(t);
      assert Take(d, 4) == d[..k] == d[..2] + t;
    }
  }

  /** `handleExpiryDateChange`: the typed digits, with a '/' after the first two once a third digit
      is typed, and digits beyond the fourth dropped. */
  function ExpiryDateChange(current: string, typed: string): (r: string)
    ensures |r| <= 5
    ensures DigitsOnly(r) == Take(DigitsOnly(typed), 4)
    ensures |DigitsOnly(typed)| <= 2 ==> r == DigitsOnly(typed)
    ensures |DigitsOnly(typed)| > 2 ==> |r| > 2 && r[2] == '/' && AllDigits(r[..2]) && AllDigits(r[3..])
  {
    var d := DigitsOnly(typed);
    ExpiryTextShape(d);
    var e := ExpiryText(d);
    if |e| <= 5 then e else current
  }

  /** The length check never rejects: the field's previous value has no influence. */
  lemma ExpiryIgnoresCurrent(a: string, b: string, typed: string)
    ensures ExpiryDateChange(a, typed) == ExpiryDateChange(b, typed)
  {
  }

  /** Feeding the field's value back through the handler changes nothing. */
  lemma ExpiryDateIdempotent(current: string, typed: string)
    ensures ExpiryDateChange(current, ExpiryDateChange(current, typed))
      == ExpiryDateChange(current, typed)
  {
    var d := DigitsOnly(typed);
    var r := ExpiryDateChange(current, typed);
    var d' := DigitsOnly(r);
    assert d' == Take(d, 4);
    if |d| > 2 {
      assert d'[..2] == d[..2] && d'[2..] == Take(d[2..], 2);
    }
  }

  /** `handleCvvChange`: the field takes the typed digits when there are at most three of them and
      otherwise keeps its value. */
  function CvvChange(current: string, typed: string): (r: string)
    ensures |DigitsOnly(typed)| <= 3 ==> r == DigitsOnly(typed)
    ensures |DigitsOnly(typed)| > 3 ==> r == current
  {
    var d := DigitsOnly(typed);
    if |d| <= 3 then d else current
  }

  /** A CVV field of at most three digits stays one, and feeding its value back changes nothing. */
  lemma CvvFieldStaysValid(current: string, typed: string)
    requires AllDigits(current) && |current| <= 3
    ensures AllDigits(CvvChange(current, typed)) && |CvvChange(current, typed)| <= 3
    ensures CvvChange(current, CvvChange(current, typed)) == CvvChange(current, typed)
  {
  }
}
