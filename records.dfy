/** The two record shapes the data service returns, JavaScript truthiness of their
    optional fields, and the per-record helpers: the year token of an ISO date and the
    day difference between two dates. */
module Records {
  import opened Wrappers

  /** One listing. A missing `agent`, `listDate` or `soldDate` is `None`. */
  datatype Property = Property(
    price: real,
    agent: Option<int>,
    listDate: Option<string>,
    soldDate: Option<string>)

  /** One agency, as the `agents` resource returns it. */
  datatype Agency = Agency(id: Option<int>, agency: Option<string>)

  /** An optional id is truthy when it is present and not 0. */
  predicate IdTruthy(id: Option<int>)
  {
    id.Some? && id.value != 0
  }

  /** An optional string is truthy when it is present and not empty. */
  predicate TextTruthy(text: Option<string>)
  {
    text.Some? && text.value != ""
  }

  // ---------------------------------------------------------------- years

  /** `getYearFromISO`: `date.split('-')[0]`, the text before the first '-'. */
  function GetYearFromIso(date: string): (year: string)
    ensures year <= date
    ensures '-' !in year
    ensures |year| == |date| || date[|year|] == '-'
    ensures '-' !in date ==> year == date
  {
    if date == [] || date[0] == '-' then []
    else
      assert date == [date[0]] + date[1..];
      [date[0]] + GetYearFromIso(date[1..])
  }

  /** The year token is the only '-'-free prefix that ends at a '-' or at the end. */
  lemma {:induction false} YearTokenUnique(date: string, token: string)
    requires token <= date && '-' !in token
    requires |token| == |date| || date[|token|] == '-'
    ensures GetYearFromIso(date) == token
  {
    if token != [] {
      assert token[0] == date[0];
      assert token[1..] <= date[1..];
      assert '-' !in token[1..] by {
        assert forall c :: c in token[1..] ==> c in token;
      }
      YearTokenUnique(date[1..], token[1..]);
      assert token == [token[0]] + token[1..];
    } else if date != [] {
      assert date[0] == '-';
    }
  }

  predicate IsDigit(c: char)
  {
    '0' <= c <= '9'
  }

  /** The value of a string of decimal digits, read left to right; "" reads as 0, as
      JavaScript converts the empty string to the number 0. */
  function DigitsValue(s: string): (n: nat)
    requires forall i :: 0 <= i < |s| ==> IsDigit(s[i])
  {
    if s == [] then 0
    else DigitsValue(s[..|s| - 1]) * 10 + DigitValue(s[|s| - 1])
  }

  function DigitValue(c: char): (d: nat)
    requires IsDigit(c)
    ensures d < 10
  {
    c as int - '0' as int
  }

  /** `token == year` with JavaScript's loose equality, for a token made of decimal
      digits: the string is converted to a number and compared. A token with any other
      character is taken not to match (see the README). */
  predicate LooselyEqualsYear(token: string, year: int)
  {
    (forall i :: 0 <= i < |token| ==> IsDigit(token[i])) && DigitsValue(token) == year
  }

  /** The usual decimal spelling of a year, no leading zeros. */
  function DecimalString(n: nat): (s: string)
    ensures s != []
    ensures forall i :: 0 <= i < |s| ==> IsDigit(s[i])
  {
    if n < 10 then ["0123456789"[n]]
    else DecimalString(n / 10) + ["0123456789"[n % 10]]
  }

  /** Reading back the decimal spelling of a year gives the year, so a date whose token
      is that spelling matches it under loose equality. */
  lemma {:induction false} DecimalStringLooselyEquals(n: nat)
    ensures LooselyEqualsYear(DecimalString(n), n)
  {
    var s := DecimalString(n);
    if n >= 10 {
      DecimalStringLooselyEquals(n / 10);
      assert s[..|s| - 1] == DecimalString(n / 10);
    }
  }

  /** A leading zero does not change the match: "02020" == 2020 in JavaScript. */
  lemma {:induction false} LeadingZeroLooselyEquals(token: string, year: int)
    requires LooselyEqualsYear(token, year)
    ensures LooselyEqualsYear("0" + token, year)
  {
    if token != [] {
      var n := |token| - 1;
      assert ("0" + token)[..|token|] == "0" + token[..n];
      assert LooselyEqualsYear(token[..n], DigitsValue(token[..n]));
      LeadingZeroLooselyEquals(token[..n], DigitsValue(token[..n]));
    } else {
      assert ("0" + token)[..0] == [];
    }
  }

  /** `cur.soldDate && getYearFromISO(cur.soldDate) == soldYear`. */
  predicate SoldInYear(p: Property, year: int)
  {
    TextTruthy(p.soldDate) && LooselyEqualsYear(GetYearFromIso(p.soldDate.value), year)
  }

  // ---------------------------------------------------------------- days

  /** `calculateOnMarketDays` over day numbers: the whole days between the two dates,
      whichever comes first. */
  function CalculateOnMarketDays(listDay: int, soldDay: int): (days: nat)
    ensures listDay + days == soldDay || soldDay + days == listDay
    ensures days == 0 <==> listDay == soldDay
  {
    if listDay <= soldDay then soldDay - listDay else listDay - soldDay
  }

  /** The order of the two dates does not matter. */
  lemma OnMarketDaysSymmetric(listDay: int, soldDay: int)
    ensures CalculateOnMarketDays(listDay, soldDay) == CalculateOnMarketDays(soldDay, listDay)
  {
  }
}
