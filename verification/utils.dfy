/** The shared helpers: page URLs and the safe date formatter. */
module Utils {
  import opened Values
  import opened Text

  /** `createPageUrl`: the Dashboard lives at the root, every other page at "/" + its name. */
  function CreatePageUrl(pageName: string): (r: string)
    ensures pageName == "Dashboard" ==> r == "/"
    ensures pageName != "Dashboard" ==> r == "/" + pageName
  {
    if pageName == "Dashboard" then "/" else "/" + pageName
  }

  /** The fields a parsed `Date` yields: `getDate()`, `getMonth()` (0-based) and `getFullYear()`. */
  datatype DateParts = DateParts(day: int, month0: int, year: int)

  /** A date as a real `Date` reports it: day 1..31, month 0..11. */
  predicate ValidParts(p: DateParts) {
    1 <= p.day <= 31 && 0 <= p.month0 <= 11
  }

  /** `String(v).padStart(2, '0')`. */
  function Pad2(v: int): string {
    PadStart(IntToString(v), 2, '0')
  }

  const NotInformed: string := "Data não informada"
  const Invalid: string := "Data inválida"

  /**
   * `formatDateSafely(dateString, pattern)`. `parsed` is what `new Date(dateString)`
   * yields, None when it is an invalid date.
   */
  function FormatDateSafely(dateString: Nullable, parsed: Option<DateParts>, pattern: string): (r: string)
    ensures !Truthy(dateString) ==> r == NotInformed
    ensures Truthy(dateString) && parsed.None? ==> r == Invalid
    ensures Truthy(dateString) && parsed.Some? ==>
      var p := parsed.value;
      var dm := Pad2(p.day) + "/" + Pad2(p.month0 + 1);
      && (pattern == "dd/MM" ==> r == dm)
      && (pattern == "dd/MM/yy" ==> r == dm + "/" + SliceLast(IntToString(p.year), 2))
      && (pattern != "dd/MM" && pattern != "dd/MM/yy" ==> r == dm + "/" + IntToString(p.year))
  {
    if !Truthy(dateString) then NotInformed
    else if parsed.None? then Invalid
    else
      var p := parsed.value;
      var day := Pad2(p.day);
      var month := Pad2(p.month0 + 1);
      var year := IntToString(p.year);
      if pattern == "dd/MM" then day + "/" + month
      else if pattern == "dd/MM/yy" then day + "/" + month + "/" + SliceLast(year, 2)
      else day + "/" + month + "/" + year
  }

  /**
   * For a real date, "dd/MM" is five characters, with '/' at index 2, and its two
   * halves read back as the day and the 1-based month.
   */
  lemma DayMonthShape(s: string, p: DateParts)
    requires Truthy(Some(s)) && ValidParts(p)
    ensures var r := FormatDateSafely(Some(s), Some(p), "dd/MM");
      && |r| == 5 && r[2] == '/'
      && ParseDecimal(r[..2]) == p.day
      && ParseDecimal(r[3..]) == p.month0 + 1
  {
    var d := Pad2(p.day);
    var m := Pad2(p.month0 + 1);
    PaddedField(p.day);
    PaddedField(p.month0 + 1);
    SlashJoin(d, m);
  }

  /** A day or month number pads to two characters that read back as the number. */
  lemma PaddedField(n: int)
    requires 1 <= n <= 31
    ensures |Pad2(n)| == 2 && ParseDecimal(Pad2(n)) == n
  {
    assert IntToString(n) == NatToString(n);
    TwoDigits(n);
    PaddedRoundTrip(n, 2);
  }

  lemma SlashJoin(a: string, b: string)
    requires |a| == 2 && |b| == 2
    ensures var r := a + "/" + b;
      |r| == 5 && r[2] == '/' && r[..2] == a && r[3..] == b
  {
    var r := a + "/" + b;
    assert r[..2] == a;
    assert r[3..] == b;
  }
}
