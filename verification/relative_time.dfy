/**
 * The publication-date label of an idea card (`formatDate` in
 * components/IdeaCard.tsx): the elapsed time since publication, in whole hours
 * rounded down, picks one of five labels.
 */
module RelativeTime {
  import opened Wrappers
  import opened JsText

  const MsPerHour: int := 1000 * 60 * 60

  /** `Math.floor(elapsed / (1000 * 60 * 60))` for an elapsed time in
      milliseconds, which is negative when the date lies in the future. */
  function ElapsedHours(elapsedMs: int): (h: int)
    ensures h * MsPerHour <= elapsedMs < (h + 1) * MsPerHour
  {
    elapsedMs / MsPerHour
  }

  /** The five branches of `formatDate`. */
  datatype Label = JustNow | HoursAgo(hours: nat) | OneDayAgo | DaysAgo(days: nat) | LocaleDate

  /** The branch taken for an elapsed time; `None` stands for a date string that
      does not parse, whose `getTime()` is NaN, so that every comparison fails. */
  function Classify(elapsedMs: Option<int>): (l: Label)
    ensures elapsedMs.None? ==> l == LocaleDate
    ensures elapsedMs.Some? ==>
              var h := ElapsedHours(elapsedMs.value);
              && (l == JustNow <==> h < 1)
              && (l.HoursAgo? <==> 1 <= h < 24)
              && (l == OneDayAgo <==> 24 <= h < 48)
              && (l.DaysAgo? <==> 48 <= h < 168)
              && (l == LocaleDate <==> 168 <= h)
              && (l.HoursAgo? ==> l.hours == h)
              && (l.DaysAgo? ==> 2 <= l.days <= 6 && l.days * 24 <= h < (l.days + 1) * 24)
  {
    match elapsedMs
    case None => LocaleDate
    case Some(ms) =>
      var h := ElapsedHours(ms);
      if h < 1 then JustNow
      else if h < 24 then HoursAgo(h)
      else if h < 48 then OneDayAgo
      else if h < 168 then DaysAgo(h / 24)
      else LocaleDate
  }

  /** The text shown for a label; `localeDate` is what `toLocaleDateString()`
      returns in the browser. A count of hours or days is printed in decimal
      before its unit, and the digits read back as that count. */
  function LabelText(l: Label, localeDate: string): (r: string)
    ensures l.HoursAgo? ==>
              && |r| > |" hours ago"| && r[|r| - |" hours ago"|..] == " hours ago"
              && var digits := r[..|r| - |" hours ago"|];
                 && (forall i :: 0 <= i < |digits| ==> '0' <= digits[i] <= '9')
                 && DecimalValue(digits) == l.hours
    ensures l.DaysAgo? ==>
              && |r| > |" days ago"| && r[|r| - |" days ago"|..] == " days ago"
              && var digits := r[..|r| - |" days ago"|];
                 && (forall i :: 0 <= i < |digits| ==> '0' <= digits[i] <= '9')
                 && DecimalValue(digits) == l.days
  {
    match l
    case JustNow => "Just now"
    case HoursAgo(h) =>
      var r := DecimalString(h) + " hours ago";
      assert r[..|r| - |" hours ago"|] == DecimalString(h);
      DecimalRoundTrip(h);
      r
    case OneDayAgo => "1 day ago"
    case DaysAgo(d) =>
      var r := DecimalString(d) + " days ago";
      assert r[..|r| - |" days ago"|] == DecimalString(d);
      DecimalRoundTrip(d);
      r
    case LocaleDate => localeDate
  }

  /** `formatDate`, given the two instants in milliseconds (`None` for a date
      string that does not parse) and the browser's locale rendering. A date in
      the future or less than an hour ago reads "Just now", one between 24 and 48
      hours ago "1 day ago", and one a week or more ago, or one that does not
      parse, the browser's own date rendering. */
  function FormatDate(nowMs: int, dateMs: Option<int>, localeDate: string): (r: string)
    ensures dateMs.Some? && nowMs - dateMs.value < MsPerHour ==> r == "Just now"
    ensures dateMs.Some? && 24 * MsPerHour <= nowMs - dateMs.value < 48 * MsPerHour ==> r == "1 day ago"
    ensures dateMs.None? || nowMs - dateMs.value >= 168 * MsPerHour ==> r == localeDate
  {
    var elapsed := if dateMs.Some? then Some(nowMs - dateMs.value) else None;
    LabelText(Classify(elapsed), localeDate)
  }

  /** Between one and 24 hours the label is "<h> hours ago", and the number shown
      reads back as the elapsed whole hours. */
  lemma HoursLabel(nowMs: int, dateMs: int, localeDate: string)
    requires MsPerHour <= nowMs - dateMs < 24 * MsPerHour
    ensures var r := FormatDate(nowMs, Some(dateMs), localeDate);
            var n := |r| - |" hours ago"|;
            && 0 < n && r[n..] == " hours ago"
            && var digits := r[..n];
               && (forall i :: 0 <= i < |digits| ==> '0' <= digits[i] <= '9')
               && DecimalValue(digits) == (nowMs - dateMs) / MsPerHour
               && 1 <= DecimalValue(digits) < 24
  {
    assert Classify(Some(nowMs - dateMs)) == HoursAgo((nowMs - dateMs) / MsPerHour);
  }

  /** Between two and seven days the label is "<d> days ago" with d the elapsed
      whole days, 2 to 6. */
  lemma DaysLabel(nowMs: int, dateMs: int, localeDate: string)
    requires 48 * MsPerHour <= nowMs - dateMs < 168 * MsPerHour
    ensures var r := FormatDate(nowMs, Some(dateMs), localeDate);
            var n := |r| - |" days ago"|;
            && 0 < n && r[n..] == " days ago"
            && var digits := r[..n];
               && (forall i :: 0 <= i < |digits| ==> '0' <= digits[i] <= '9')
               && DecimalValue(digits) == (nowMs - dateMs) / MsPerHour / 24
               && 2 <= DecimalValue(digits) <= 6
  {
    assert Classify(Some(nowMs - dateMs)) == DaysAgo((nowMs - dateMs) / MsPerHour / 24);
  }
}
