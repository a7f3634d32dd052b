/** Calendar dates and the two textual forms the system writes: the
    `dd/mm/yyyy` form built by hand from the `Date` getters, and the
    `yyyy-mm-dd` prefix of `Date.prototype.toISOString`. The clock itself
    is not modelled: "today" is always a parameter. */
module Dates {
  import opened Text

  /** A date as JavaScript's getters report it: `getFullYear()`,
      `getMonth() + 1` and `getDate()`. */
  datatype Date = Date(year: nat, month: nat, day: nat)

  predicate Valid(d: Date)
  {
    1 <= d.month <= 12 && 1 <= d.day <= 31
  }

  /** `String(n).padStart(2, '0')`. */
  function Pad2(n: nat): string
  {
    PadStart(NatToString(n), 2, '0')
  }

  /** `${day}/${month}/${year}` with day and month padded to two digits and
      the year written as it is. */
  function FormatDDMMYYYY(d: Date): string
  {
    Pad2(d.day) + "/" + Pad2(d.month) + "/" + NatToString(d.year)
  }

  /** `toISOString().split('T')[0]`: a four-digit year, or a sign and six
      digits beyond year 9999, then the padded month and day. */
  function IsoDate(d: Date): string
  {
    (if d.year <= 9999 then PadStart(NatToString(d.year), 4, '0')
     else "+" + PadStart(NatToString(d.year), 6, '0'))
    + "-" + Pad2(d.month) + "-" + Pad2(d.day)
  }

  lemma Pad2Facts(n: nat)
    requires 1 <= n <= 31
    ensures |Pad2(n)| == 2 && AllDigits(Pad2(n)) && DigitsValue(Pad2(n)) == n
  {
    PaddedNumberValue(n, 2);
  }

  /** The `dd/mm/yyyy` form splits on `/` into exactly three digit strings,
      day first, each denoting its field, with day and month two digits wide. */
  lemma FormatDDMMYYYYFields(d: Date)
    requires Valid(d)
    ensures var parts := Split(FormatDDMMYYYY(d), '/');
      && |parts| == 3
      && parts[0] == Pad2(d.day) && parts[1] == Pad2(d.month) && parts[2] == NatToString(d.year)
      && |parts[0]| == 2 && |parts[1]| == 2
      && AllDigits(parts[0]) && AllDigits(parts[1]) && AllDigits(parts[2])
      && DigitsValue(parts[0]) == d.day && DigitsValue(parts[1]) == d.month
      && DigitsValue(parts[2]) == d.year
  {
    Pad2Facts(d.day);
    Pad2Facts(d.month);
    FormatDDMMYYYYSplit(d);
  }

  lemma FormatDDMMYYYYSplit(d: Date)
    requires Valid(d)
    ensures Split(FormatDDMMYYYY(d), '/') == [Pad2(d.day), Pad2(d.month), NatToString(d.year)]
  {
    var a, b, c := Pad2(d.day), Pad2(d.month), NatToString(d.year);
    Pad2Facts(d.day);
    Pad2Facts(d.month);
    AllDigitsAvoid(a, '/');
    AllDigitsAvoid(b, '/');
    AllDigitsAvoid(c, '/');
    SplitThree(a, b, c, '/');
  }

  /** Distinct valid dates have distinct `dd/mm/yyyy` forms. */
  lemma FormatDDMMYYYYInjective(d1: Date, d2: Date)
    requires Valid(d1) && Valid(d2) && d1 != d2
    ensures FormatDDMMYYYY(d1) != FormatDDMMYYYY(d2)
  {
    FormatDDMMYYYYFields(d1);
    FormatDDMMYYYYFields(d2);
  }

  /** The ISO form of a date with a four-digit year splits on `-` into year,
      month and day. */
  lemma IsoDateFields(d: Date)
    requires Valid(d) && d.year <= 9999
    ensures var parts := Split(IsoDate(d), '-');
      && |parts| == 3
      && parts[1] == Pad2(d.month) && parts[2] == Pad2(d.day)
      && AllDigits(parts[0]) && AllDigits(parts[1]) && AllDigits(parts[2])
      && DigitsValue(parts[0]) == d.year
      && DigitsValue(parts[1]) == d.month && DigitsValue(parts[2]) == d.day
  {
    Pad2Facts(d.day);
    Pad2Facts(d.month);
    PaddedNumberValue(d.year, 4);
    IsoDateSplit(d);
  }

  lemma IsoDateSplit(d: Date)
    requires Valid(d) && d.year <= 9999
    ensures Split(IsoDate(d), '-') == [PadStart(NatToString(d.year), 4, '0'), Pad2(d.month), Pad2(d.day)]
  {
    var a, b, c := PadStart(NatToString(d.year), 4, '0'), Pad2(d.month), Pad2(d.day);
    Pad2Facts(d.day);
    Pad2Facts(d.month);
    PaddedNumberValue(d.year, 4);
    AllDigitsAvoid(a, '-');
    AllDigitsAvoid(b, '-');
    AllDigitsAvoid(c, '-');
    SplitThree(a, b, c, '-');
  }
}
