/** The memory page (frontend/src/pages/Memory.jsx): loading the entry of the
    searched day and stepping through its snapshots. The two API calls are
    parameters: their results, or None for a request that throws. */
module MemoryPage {
  import opened Wrappers
  import opened JournalModel

  /** `nextSlide`: the last index wraps to 0, any other steps forward. */
  function NextSlide(i: int, n: nat): int {
    if i == n - 1 then 0 else i + 1
  }

  /** `prevSlide`: index 0 wraps to the last, any other steps back. */
  function PrevSlide(i: int, n: nat): int {
    if i == 0 then n - 1 else i - 1
  }

  /** Both stay on a slide, and each undoes the other. */
  lemma SlidesStayInRange(i: int, n: nat)
    requires 0 <= i < n
    ensures 0 <= NextSlide(i, n) < n && 0 <= PrevSlide(i, n) < n
    ensures NextSlide(PrevSlide(i, n), n) == i && PrevSlide(NextSlide(i, n), n) == i
  {
  }

  /** Stepping is counting modulo the number of slides. */
  lemma SlidesAreModular(i: int, n: nat)
    requires 0 <= i < n
    ensures NextSlide(i, n) == (i + 1) % n && PrevSlide(i, n) == (i - 1) % n
  {
  }

  /** k steps forward from slide i. */
  function Advance(i: int, n: nat, k: nat): int {
    if k == 0 then i else NextSlide(Advance(i, n, k - 1), n)
  }

  lemma {:induction false} AdvanceAdd(i: int, n: nat, a: nat, b: nat)
    ensures Advance(i, n, a + b) == Advance(Advance(i, n, a), n, b)
  {
    if b > 0 {
      AdvanceAdd(i, n, a, b - 1);
    }
  }

  /** Before the wrap, k presses of "next" move k slides forward. */
  lemma {:induction false} AdvanceForward(i: int, n: nat, k: nat)
    requires 0 <= i && i + k < n
    ensures Advance(i, n, k) == i + k
  {
    if k > 0 {
      AdvanceForward(i, n, k - 1);
    }
  }

  /** n presses of "next" come back to the slide they started from. */
  lemma AdvanceCycles(i: int, n: nat)
    requires 0 <= i < n
    ensures Advance(i, n, n) == i
  {
    AdvanceForward(i, n, n - 1 - i);
    assert Advance(i, n, n - i) == 0;
    AdvanceAdd(i, n, n - i, i);
    if i > 0 {
      AdvanceForward(0, n, i);
    }
  }

  /** The page's state. `LoadJournal` reports in `requested` whether it fetched the entry itself. */
  class Page {
    var journal: Option<JournalDoc>
    var loading: bool
    var error: Option<string>
    var journalDates: seq<string>
    var currentSlide: int

    constructor ()
      ensures journal == None && loading && error == None && journalDates == [] && currentSlide == 0
    {
      journal := None;
      loading := true;
      error := None;
      journalDates := [];
      currentSlide := 0;
    }

    /** `loadJournal`: the entry is fetched only when the day is among the
      entry dates; a request that throws shows the error and clears the
      entry; loading ends either way. */
    method LoadJournal(searchDate: string, dates: Option<seq<string>>, fetched: Option<JournalDoc>)
      returns (requested: bool)
      modifies this
      ensures !loading && currentSlide == old(currentSlide)
      ensures requested <==> dates.Some? && searchDate in dates.value
      ensures dates.None? || (requested && fetched.None?) ==>
        error == Some(NotFound) && journal == None && journalDates == old(journalDates)
      ensures requested && fetched.Some? ==>
        journal == fetched && error == None && journalDates == dates.value
      ensures dates.Some? && !requested ==>
        journal == old(journal) && error == old(error) && journalDates == old(journalDates)
    {
      loading := true;
      requested := false;
      if dates.None? {
        error := Some(NotFound);
        journal := None;
      } else if searchDate in dates.value {
        requested := true;
        if fetched.None? {
          error := Some(NotFound);
          journal := None;
        } else {
          journalDates := dates.value;
          journal := fetched;
          error := None;
        }
      }
      loading := false;
    }

    /** The arrows, shown only while the entry has snapshots. */
    method Next()
      requires journal.Some? && |journal.value.snapPhotos| > 0
      modifies this
      ensures journal == old(journal) && currentSlide == NextSlide(old(currentSlide), |journal.value.snapPhotos|)
      ensures loading == old(loading) && error == old(error) && journalDates == old(journalDates)
    {
      currentSlide := NextSlide(currentSlide, |journal.value.snapPhotos|);
    }

    method Prev()
      requires journal.Some? && |journal.value.snapPhotos| > 0
      modifies this
      ensures journal == old(journal) && currentSlide == PrevSlide(old(currentSlide), |journal.value.snapPhotos|)
      ensures loading == old(loading) && error == old(error) && journalDates == old(journalDates)
    {
      currentSlide := PrevSlide(currentSlide, |journal.value.snapPhotos|);
    }
  }

  const NotFound := "No journal entry found for this date"
}
