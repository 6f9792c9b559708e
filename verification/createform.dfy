/**
 * The event-creation form (CreateEventForm.kt) as a state value and the
 * handlers that change it: the date-picker callback, the location callback,
 * the category dropdown and the "Créer" button.
 */
module CreateForm {
  import opened Wrappers
  import opened Text
  import opened Entity
  import Dao

  /** The dropdown's choices, in display order. */
  const Categories: seq<string> := ["Musique", "Théâtre", "Sport", "Conférence", "Autre"]

  const PastDateMessage: string := "La date doit être aujourd'hui ou ultérieure"
  const TitleRequiredMessage: string := "Le titre est obligatoire"
  const DateRequiredMessage: string := "La date est obligatoire"

  /** The form's remembered state. `imageUri` is the picked image's `Uri.toString()`. */
  datatype FormState = FormState(
    title: string,
    titleError: Option<string>,
    dateText: string,
    dateError: Option<string>,
    location: string,
    description: string,
    selectedCategory: string,
    latitude: Option<real>,
    longitude: Option<real>,
    imageUri: Option<string>)

  /** Both coordinates or neither, and a category the dropdown offers. */
  predicate FormInvariant(s: FormState) {
    && (s.latitude.Some? <==> s.longitude.Some?)
    && s.selectedCategory in Categories
  }

  /** The state the form opens with: everything empty, the last category selected. */
  function InitialForm(): (s: FormState)
    ensures s.selectedCategory == Categories[|Categories| - 1]
    ensures s.selectedCategory == DefaultCategory
    ensures s.title == "" && s.dateText == "" && s.titleError.None? && s.dateError.None?
    ensures s.latitude.None? && s.longitude.None?
    ensures FormInvariant(s)
  {
    FormState("", None, "", None, "", "", Categories[|Categories| - 1], None, None, None)
  }

  /** Choosing a dropdown entry. */
  function SelectCategory(s: FormState, category: string): (r: FormState)
    requires category in Categories
    ensures r.selectedCategory == category
    ensures r.(selectedCategory := s.selectedCategory) == s
    ensures FormInvariant(s) ==> FormInvariant(r)
  {
    s.(selectedCategory := category)
  }

  /**
   * The last-location listener: a fix sets both coordinates at once, a missing
   * fix (`loc == null`) leaves the form as it was.
   */
  function ReceiveLocation(s: FormState, fix: Option<(real, real)>): (r: FormState)
    ensures fix.Some? ==> r.latitude == Some(fix.value.0) && r.longitude == Some(fix.value.1)
    ensures fix.None? ==> r == s
    ensures r.(latitude := s.latitude, longitude := s.longitude) == s
    ensures FormInvariant(s) ==> FormInvariant(r)
  {
    match fix
    case Some((lat, lon)) => s.(latitude := Some(lat), longitude := Some(lon))
    case None => s
  }

  /* ---------- the date picker ---------- */

  /** A calendar day as `DatePickerDialog` reports it: the month counts from 0. */
  datatype CalendarDay = CalendarDay(year: int, month: int, day: int)

  /** Strictly earlier, comparing year, then month, then day. */
  predicate Before(a: CalendarDay, b: CalendarDay) {
    || a.year < b.year
    || (a.year == b.year && a.month < b.month)
    || (a.year == b.year && a.month == b.month && a.day < b.day)
  }

  /** The month segment: the 1-based month padded to two digits. */
  function MonthText(m: int): string {
    PadStart(IntToString(m + 1), 2, '0')
  }

  /** The date string the form stores: the month padded to two digits, the year and day as they are. */
  function DateText(y: int, m: int, d: int): string {
    IntToString(y) + "-" + MonthText(m) + "-" + IntToString(d)
  }

  /**
   * The date-picker callback. A day before today sets the error and keeps the
   * previous text; today or later clears the error and stores the date string.
   */
  function OnDatePicked(s: FormState, today: CalendarDay, y: int, m: int, d: int): (r: FormState)
    ensures Before(CalendarDay(y, m, d), today) ==>
      r.dateError == Some(PastDateMessage) && r.dateText == s.dateText
    ensures !Before(CalendarDay(y, m, d), today) ==>
      r.dateError.None? && r.dateText == DateText(y, m, d)
    ensures r.(dateText := s.dateText, dateError := s.dateError) == s
    ensures FormInvariant(s) ==> FormInvariant(r)
  {
    if Before(CalendarDay(y, m, d), today) then s.(dateError := Some(PastDateMessage))
    else s.(dateError := None, dateText := DateText(y, m, d))
  }

  predicate IsNumeral(s: string) {
    |s| > 0 && AllDigits(s)
  }

  /** The pieces of a `year-month-day` string, read as numbers. */
  function ParseDate(s: string): Option<(nat, nat, nat)> {
    var parts := Split(s, '-');
    if |parts| == 3 && IsNumeral(parts[0]) && IsNumeral(parts[1]) && IsNumeral(parts[2]) then
      Some((ParseNat(parts[0]), ParseNat(parts[1]), ParseNat(parts[2])))
    else None
  }

  /** The two-digit month segment for months 0 to 11. */
  lemma MonthSegment(m: int)
    requires 0 <= m <= 11
    ensures |MonthText(m)| == 2 && AllDigits(MonthText(m)) && ParseNat(MonthText(m)) == m + 1
  {
    Pad2(m + 1);
  }

  /** Zero-padding a number below 100 to two digits keeps its value. */
  lemma Pad2(n: nat)
    requires n < 100
    ensures var seg := PadStart(IntToString(n), 2, '0');
      |seg| == 2 && AllDigits(seg) && ParseNat(seg) == n
  {
    var seg := PadStart(IntToString(n), 2, '0');
    NatToStringLength(n);
    if n < 10 {
      assert seg == "0" + [DigitChar(n)];
      assert seg[..1] == "0" && "0"[..0] == "";
      assert ParseNat("0") == 0;
    } else {
      ParseNatToString(n);
    }
  }

  /**
   * The layout of an accepted date string: year digits, a dash, two month
   * digits, a dash, and the day's digits with no padding.
   */
  lemma {:induction false} DateTextLayout(y: int, m: int, d: int)
    requires 0 <= y && 0 <= m <= 11 && 0 <= d
    ensures DateText(y, m, d) == NatToString(y) + ['-'] + MonthText(m) + ['-'] + NatToString(d)
    ensures |DateText(y, m, d)| == |NatToString(y)| + 4 + |NatToString(d)|
    ensures d < 10 ==> DateText(y, m, d)[|DateText(y, m, d)| - 2] == '-'
  {
    MonthSegment(m);
    assert IntToString(y) == NatToString(y) && IntToString(d) == NatToString(d);
    NatToStringLength(d);
  }

  /** An accepted date string splits on '-' into its three fields. */
  lemma {:induction false} DateTextSplits(y: int, m: int, d: int)
    requires 0 <= y && 0 <= m <= 11 && 0 <= d
    ensures Split(DateText(y, m, d), '-') == [NatToString(y), MonthText(m), NatToString(d)]
  {
    var ys, ms, ds := NatToString(y), MonthText(m), NatToString(d);
    MonthSegment(m);
    DigitsHaveNoSeparator(ys, '-');
    DigitsHaveNoSeparator(ms, '-');
    DigitsHaveNoSeparator(ds, '-');
    DateTextLayout(y, m, d);
    SplitJoined('-', ys, ms, ds);
  }

  /** A string that splits into three numerals parses to their values. */
  lemma ParseDateOfFields(s: string, ys: string, ms: string, ds: string)
    requires Split(s, '-') == [ys, ms, ds]
    requires IsNumeral(ys) && IsNumeral(ms) && IsNumeral(ds)
    ensures ParseDate(s) == Some((ParseNat(ys), ParseNat(ms), ParseNat(ds)))
  {
  }

  /** Reading an accepted date string back gives the year, the 1-based month and the day. */
  lemma {:induction false} ParseDateText(y: int, m: int, d: int)
    requires 0 <= y && 0 <= m <= 11 && 0 <= d
    ensures ParseDate(DateText(y, m, d)) == Some((y, m + 1, d))
  {
    var ys, ms, ds := NatToString(y), MonthText(m), NatToString(d);
    DateTextSplits(y, m, d);
    MonthSegment(m);
    ParseNatToString(y);
    ParseNatToString(d);
    ParseDateOfFields(DateText(y, m, d), ys, ms, ds);
  }

  /** The concrete shape: 5 March 2025 (month index 2) is stored as "2025-03-5". */
  lemma DayIsNotPadded()
    ensures DateText(2025, 2, 5) == "2025-03-5"
  {
    assert NatToString(2025) == "2025" by {
      assert NatToString(2) == "2";
      assert NatToString(20) == "20";
      assert NatToString(202) == "202";
    }
    assert MonthText(2) == "03";
  }

  /* ---------- the "Créer" button ---------- */

  /** The state after a press, and the entity handed to `onEventCreated`, if any. */
  datatype SubmitResult = SubmitResult(state: FormState, created: Option<EventEntity>)

  /** The row `onEventCreated` receives when the form is valid. */
  function EntityOf(s: FormState): EventEntity {
    NewEventEntity(
      title := s.title,
      date := s.dateText,
      location := Some(s.location),
      description := Some(s.description),
      imageUri := s.imageUri,
      category := Some(s.selectedCategory),
      latitude := s.latitude,
      longitude := s.longitude)
  }

  /**
   * The button handler. Title and date are checked independently, each
   * setting its own error; an error is never cleared here. The entity is
   * built and passed on only when neither is blank.
   */
  function Submit(s: FormState): (r: SubmitResult)
    ensures IsBlank(s.title) ==> r.state.titleError == Some(TitleRequiredMessage)
    ensures !IsBlank(s.title) ==> r.state.titleError == s.titleError
    ensures IsBlank(s.dateText) ==> r.state.dateError == Some(DateRequiredMessage)
    ensures !IsBlank(s.dateText) ==> r.state.dateError == s.dateError
    ensures r.state.(titleError := s.titleError, dateError := s.dateError) == s
    ensures r.created.Some? <==> !IsBlank(s.title) && !IsBlank(s.dateText)
    ensures r.created.Some? ==>
      var e := r.created.value;
      && e.id == 0 && !e.isParticipating
      && e.title == s.title && e.date == s.dateText
      && e.location == Some(s.location) && e.description == Some(s.description)
      && e.imageUri == s.imageUri && e.category == Some(s.selectedCategory)
      && e.latitude == s.latitude && e.longitude == s.longitude
  {
    var s1 := if IsBlank(s.title) then s.(titleError := Some(TitleRequiredMessage)) else s;
    var s2 := if IsBlank(s.dateText) then s1.(dateError := Some(DateRequiredMessage)) else s1;
    var valid := !IsBlank(s.title) && !IsBlank(s.dateText);
    SubmitResult(s2, if valid then Some(EntityOf(s)) else None)
  }

  /** A press with both fields blank reports both errors at once and creates nothing. */
  lemma SubmitReportsBothErrors(s: FormState)
    requires IsBlank(s.title) && IsBlank(s.dateText)
    ensures Submit(s).state.titleError == Some(TitleRequiredMessage)
    ensures Submit(s).state.dateError == Some(DateRequiredMessage)
    ensures Submit(s).created.None?
  {
  }

  /** An accepted pick leaves a date the button accepts. */
  lemma AcceptedPickPassesDateCheck(s: FormState, today: CalendarDay, y: int, m: int, d: int)
    requires !Before(CalendarDay(y, m, d), today)
    ensures !IsBlank(OnDatePicked(s, today, y, m, d).dateText)
    ensures Submit(OnDatePicked(s, today, y, m, d)).state.dateError.None?
  {
    var text := DateText(y, m, d);
    DigitMakesNonBlank(text, |text| - 1);
  }

  /** A rejected pick never changes what the button sees as the date. */
  lemma RejectedPickKeepsDate(s: FormState, today: CalendarDay, y: int, m: int, d: int)
    requires Before(CalendarDay(y, m, d), today)
    ensures Submit(OnDatePicked(s, today, y, m, d)).created.Some? <==> Submit(s).created.Some?
  {
  }

  /**
   * Every handler keeps the coordinates paired, so a created entity has both
   * coordinates or neither, and its category is one the dropdown offers.
   */
  lemma CreatedEntityShape(s: FormState)
    requires FormInvariant(s) && Submit(s).created.Some?
    ensures var e := Submit(s).created.value;
      && (e.latitude.Some? <==> e.longitude.Some?)
      && e.category.Some? && e.category.value in Categories
    ensures FormInvariant(Submit(s).state)
  {
  }

  /* ---------- day order ---------- */

  /** The days a `yyyy` year and a picker month and day can name. */
  predicate FourDigitDay(c: CalendarDay) {
    1000 <= c.year <= 9999 && 0 <= c.month <= 11 && 1 <= c.day <= 31
  }

  /** The date string with the day zero-padded like the month. */
  function PaddedDateText(y: int, m: int, d: int): string {
    IntToString(y) + "-" + MonthText(m) + "-" + PadStart(IntToString(d), 2, '0')
  }

  /**
   * As written, the string order of stored dates is not the order of the days:
   * 10 March 2025 sorts before 5 March 2025.
   */
  lemma UnpaddedDayMisorders()
    ensures Before(CalendarDay(2025, 2, 5), CalendarDay(2025, 2, 10))
    ensures Less(DateText(2025, 2, 10), DateText(2025, 2, 5))
  {
    DayIsNotPadded();
    assert NatToString(10) == "10";
    assert DateText(2025, 2, 10) == "2025-03-10";
  }

  /** A `ORDER BY date` listing of as-written dates that puts the later day first. */
  lemma UnpaddedListingMisorders(e: EventEntity)
    ensures var later := e.(date := DateText(2025, 2, 10));
      var earlier := e.(date := DateText(2025, 2, 5));
      && Dao.DateSorted([later, earlier])
      && Before(CalendarDay(2025, 2, 5), CalendarDay(2025, 2, 10))
  {
    UnpaddedDayMisorders();
    var a, b := DateText(2025, 2, 10), DateText(2025, 2, 5);
    LessOrEqualTotal(a, b);
    if Less(b, a) {
      LessTransitive(a, b, a);
      LessIrreflexive(a);
    }
  }

  /** The fields of a padded date string of a four-digit year. */
  lemma PaddedFields(c: CalendarDay)
    requires FourDigitDay(c)
    ensures var ys := NatToString(c.year);
      && |ys| == 4 && AllDigits(ys) && ParseNat(ys) == c.year
    ensures var ms := MonthText(c.month);
      && |ms| == 2 && AllDigits(ms) && ParseNat(ms) == c.month + 1
    ensures var ds := PadStart(IntToString(c.day), 2, '0');
      && |ds| == 2 && AllDigits(ds) && ParseNat(ds) == c.day
  {
    NatToStringLength(c.year);
    ParseNatToString(c.year);
    MonthSegment(c.month);
    Pad2(c.day);
  }

  /** Padded date strings compare year, then month, then day segment. */
  lemma {:induction false} PaddedOrderByFields(a: CalendarDay, b: CalendarDay)
    requires FourDigitDay(a) && FourDigitDay(b)
    ensures var ya, ma, da := NatToString(a.year), MonthText(a.month), PadStart(IntToString(a.day), 2, '0');
      var yb, mb, db := NatToString(b.year), MonthText(b.month), PadStart(IntToString(b.day), 2, '0');
      Less(PaddedDateText(a.year, a.month, a.day), PaddedDateText(b.year, b.month, b.day))
      <==> Less(ya, yb) || (ya == yb && (Less(ma, mb) || (ma == mb && Less(da, db))))
  {
    PaddedFields(a);
    PaddedFields(b);
    var ya, ma, da := NatToString(a.year), MonthText(a.month), PadStart(IntToString(a.day), 2, '0');
    var yb, mb, db := NatToString(b.year), MonthText(b.month), PadStart(IntToString(b.day), 2, '0');
    assert PaddedDateText(a.year, a.month, a.day) == ya + ['-'] + ma + ['-'] + da;
    assert PaddedDateText(b.year, b.month, b.day) == yb + ['-'] + mb + ['-'] + db;
    JoinedOrder('-', ya, ma, da, yb, mb, db);
  }

  /** With the day padded, string order on dates is exactly day order. */
  lemma {:induction false} PaddedOrderIsChronological(a: CalendarDay, b: CalendarDay)
    requires FourDigitDay(a) && FourDigitDay(b)
    ensures Less(PaddedDateText(a.year, a.month, a.day), PaddedDateText(b.year, b.month, b.day))
      <==> Before(a, b)
  {
    PaddedOrderByFields(a, b);
    PaddedFields(a);
    PaddedFields(b);
    var ya, ma, da := NatToString(a.year), MonthText(a.month), PadStart(IntToString(a.day), 2, '0');
    var yb, mb, db := NatToString(b.year), MonthText(b.month), PadStart(IntToString(b.day), 2, '0');
    DigitsOrderIsNumeric(ya, yb);
    DigitsOrderIsNumeric(ma, mb);
    DigitsOrderIsNumeric(da, db);
  }

  /**
   * If every stored date is a padded date, a `ORDER BY date` listing is in day
   * order.
   */
  lemma {:induction false} PaddedListingIsChronological(s: seq<EventEntity>, days: seq<CalendarDay>)
    requires Dao.DateSorted(s) && |days| == |s|
    requires forall i | 0 <= i < |s| ::
      FourDigitDay(days[i]) && s[i].date == PaddedDateText(days[i].year, days[i].month, days[i].day)
    ensures forall i, j | 0 <= i < j < |s| :: !Before(days[j], days[i])
  {
    forall i, j | 0 <= i < j < |s|
      ensures !Before(days[j], days[i])
    {
      PaddedOrderIsChronological(days[j], days[i]);
    }
  }
}
