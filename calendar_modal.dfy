/** The date picker of the memory page (frontend/src/components/CalendarModal.jsx):
    which days are highlighted and selectable, and what confirming a
    selection does. Days are calendar dates; "now" is a parameter. */
module CalendarModal {
  import opened Wrappers
  import Text

  datatype Day = Day(year: nat, month: nat, day: nat)

  /** A tile's date (midnight of its day) is after the present moment
      exactly when its day is after today. */
  predicate After(a: Day, b: Day) {
    a.year > b.year
    || (a.year == b.year && a.month > b.month)
    || (a.year == b.year && a.month == b.month && a.day > b.day)
  }

  /** `format(date, "yyyy-MM-dd")`. */
  function Format(d: Day): string {
    Text.PadLeft(Text.Decimal(d.year), 4) + "-" + Text.PadLeft(Text.Decimal(d.month), 2) + "-"
      + Text.PadLeft(Text.Decimal(d.day), 2)
  }

  /** Reading a "yyyy-MM-dd" string back: three dash-separated runs of
      digits. */
  function ParseDay(s: string): Option<Day> {
    var parts := Text.Split(s, '-');
    if |parts| == 3 && Text.AllDigits(parts[0]) && Text.AllDigits(parts[1]) && Text.AllDigits(parts[2])
       && parts[0] != [] && parts[1] != [] && parts[2] != []
    then Some(Day(Text.ValueOf(parts[0]), Text.ValueOf(parts[1]), Text.ValueOf(parts[2])))
    else None
  }

  /** The formatted form of a day reads back as that day. */
  lemma ParseFormat(d: Day)
    ensures ParseDay(Format(d)) == Some(d)
  {
    var y := Text.PadLeft(Text.Decimal(d.year), 4);
    var m := Text.PadLeft(Text.Decimal(d.month), 2);
    var dd := Text.PadLeft(Text.Decimal(d.day), 2);
    Text.ValueOfPadLeft(Text.Decimal(d.year), 4);
    Text.ValueOfPadLeft(Text.Decimal(d.month), 2);
    Text.ValueOfPadLeft(Text.Decimal(d.day), 2);
    Text.ValueOfDecimal(d.year);
    Text.ValueOfDecimal(d.month);
    Text.ValueOfDecimal(d.day);
    Text.DigitsHaveNoDash(y);
    Text.DigitsHaveNoDash(m);
    Text.DigitsHaveNoDash(dd);
    Text.SplitThree(y, m, dd, '-');
  }

  /** Different days have different formatted forms. */
  lemma FormatInjective(a: Day, b: Day)
    ensures Format(a) == Format(b) <==> a == b
  {
    ParseFormat(a);
    ParseFormat(b);
  }

  /** `hasJournal`: the day's formatted form is one of the entry dates. */
  predicate HasJournal(d: Day, journalDates: seq<string>) {
    exists i :: 0 <= i < |journalDates| && journalDates[i] == Format(d)
  }

  const FutureClass := "opacity-25 cursor-not-allowed"
  const JournalClass := "bg-blue-100 text-blue-800 font-medium hover:bg-blue-200"
  const EmptyClass := "text-gray-400"

  /** `tileClassName`: only the month view is styled; a future day is dimmed
      before anything else, a day with an entry highlighted, and the rest
      grayed. */
  function TileClassName(d: Day, view: string, today: Day, journalDates: seq<string>): (r: Option<string>)
    ensures r.None? <==> view != "month"
    ensures r == Some(FutureClass) <==> view == "month" && After(d, today)
    ensures r == Some(JournalClass) <==> view == "month" && !After(d, today) && HasJournal(d, journalDates)
    ensures r == Some(EmptyClass) <==> view == "month" && !After(d, today) && !HasJournal(d, journalDates)
  {
    if view == "month" then
      if After(d, today) then Some(FutureClass)
      else if HasJournal(d, journalDates) then Some(JournalClass)
      else Some(EmptyClass)
    else None
  }

  /** `tileDisabled`: a future day, or one without an entry. */
  predicate TileDisabled(d: Day, today: Day, journalDates: seq<string>) {
    After(d, today) || !HasJournal(d, journalDates)
  }

  /** In the month view the selectable tiles are exactly the highlighted
      ones. */
  lemma EnabledIffHighlighted(d: Day, today: Day, journalDates: seq<string>)
    ensures !TileDisabled(d, today, journalDates) <==> TileClassName(d, "month", today, journalDates) == Some(JournalClass)
  {
  }

  const MemoryRoute := "/memory?date="

  /** The modal's selection, whether it is shown, and where the page has
      navigated. */
  class Modal {
    var selectedDate: Option<Day>
    var showCalendar: bool
    var location: Option<string>
    const journalDates: seq<string>

    constructor (journalDates: seq<string>)
      ensures selectedDate == None && showCalendar && location == None && this.journalDates == journalDates
    {
      selectedDate := None;
      showCalendar := true;
      location := None;
      this.journalDates := journalDates;
    }

    /** `onChange`: picking a day. */
    method Select(d: Day)
      modifies this
      ensures selectedDate == Some(d) && showCalendar == old(showCalendar) && location == old(location)
    {
      selectedDate := Some(d);
    }

    /** `handleCancel`: clears the selection and closes. */
    method Cancel()
      modifies this
      ensures selectedDate == None && !showCalendar && location == old(location)
    {
      selectedDate := None;
      showCalendar := false;
    }

    /** `handleConfirm`: with a selected day that has an entry, closes and
      opens that day's memory; otherwise does nothing. */
    method Confirm()
      modifies this
      ensures selectedDate == old(selectedDate)
      ensures old(selectedDate).Some? && HasJournal(old(selectedDate).value, journalDates) ==>
        !showCalendar && location == Some(MemoryRoute + Format(old(selectedDate).value))
      ensures !(old(selectedDate).Some? && HasJournal(old(selectedDate).value, journalDates)) ==>
        showCalendar == old(showCalendar) && location == old(location)
    {
      if selectedDate.Some? && HasJournalIn(selectedDate.value, journalDates) {
        showCalendar := false;
        location := Some(MemoryRoute + Format(selectedDate.value));
      }
    }
  }

  /** `journalDates.some(...)`: a scan for the formatted day. */
  function HasJournalIn(d: Day, journalDates: seq<string>): (r: bool)
    ensures r <==> HasJournal(d, journalDates)
    decreases |journalDates|
  {
    if journalDates == [] then false
    else if journalDates[0] == Format(d) then true
    else
      var rest := HasJournalIn(d, journalDates[1..]);
      assert rest ==> HasJournal(d, journalDates) by {
        if rest {
          var k :| 0 <= k < |journalDates[1..]| && journalDates[1..][k] == Format(d);
          assert journalDates[k + 1] == Format(d);
        }
      }
      assert HasJournal(d, journalDates) ==> rest by {
        if HasJournal(d, journalDates) {
          var k :| 0 <= k < |journalDates| && journalDates[k] == Format(d);
          assert k > 0 && journalDates[1..][k - 1] == Format(d);
        }
      }
      rest
  }

  /** The date a confirmation navigates to reads back as the selected day:
      the memory page searches for the day that was picked. */
  lemma ConfirmedRouteNamesDay(d: Day)
    ensures var url := MemoryRoute + Format(d);
      Text.StartsWith(url, MemoryRoute) && ParseDay(url[|MemoryRoute|..]) == Some(d)
  {
    ParseFormat(d);
    var url := MemoryRoute + Format(d);
    assert url[|MemoryRoute|..] == Format(d);
  }
}
