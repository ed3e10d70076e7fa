/** The dashboard's list of recent entries (frontend/src/pages/Dashboard.jsx):
    pages fetched by offset and accumulated, with "Load More" asking for the
    page after the ones already shown. The paginated request is a parameter:
    its page, or None for one that throws. */
module Dashboard {
  import opened Wrappers
  import opened JournalModel

  /** One answer of the paginated endpoint. */
  datatype Page = Page(journals: seq<JournalDoc>, hasMore: bool)

  /** A server that serves `all` in pages of `size` from offset `skip`. */
  function ServerPage(all: seq<JournalDoc>, size: nat, skip: nat): (p: Page)
    ensures skip <= |all| ==> p.journals == all[skip..if skip + size <= |all| then skip + size else |all|]
    ensures p.hasMore <==> skip + size < |all|
  {
    if skip >= |all| then Page([], false)
    else Page(all[skip..if skip + size <= |all| then skip + size else |all|], skip + size < |all|)
  }

  class Board {
    var journals: seq<JournalDoc>
    var hasMore: bool
    var isLoading: bool
    var requested: seq<nat>

    constructor ()
      ensures journals == [] && !hasMore && !isLoading && requested == []
    {
      journals := [];
      hasMore := false;
      isLoading := false;
      requested := [];
    }

    /** `fetchJournals(skip)`: the page goes after what is shown and its flag
      replaces `hasMore`; a failure changes neither; loading ends either way. */
    method FetchJournals(skip: nat, page: Option<Page>)
      modifies this
      ensures requested == old(requested) + [skip] && !isLoading
      ensures page.Some? ==> journals == old(journals) + page.value.journals && hasMore == page.value.hasMore
      ensures page.None? ==> journals == old(journals) && hasMore == old(hasMore)
    {
      isLoading := true;
      requested := requested + [skip];
      if page.Some? {
        journals := journals + page.value.journals;
        hasMore := page.value.hasMore;
      }
      isLoading := false;
    }

    /** `fetchDashboardData`: the first load asks from offset 0, but only
      once the entry dates and the metrics have both arrived (`summaryOk`);
      when either request rejects, the list is never fetched and nothing
      changes. */
    method InitialLoad(summaryOk: bool, page: Option<Page>)
      modifies this
      ensures !summaryOk ==>
        && requested == old(requested) && journals == old(journals)
        && hasMore == old(hasMore) && isLoading == old(isLoading)
      ensures summaryOk ==> requested == old(requested) + [0] && !isLoading
      ensures summaryOk && page.Some? ==> journals == old(journals) + page.value.journals && hasMore == page.value.hasMore
      ensures summaryOk && page.None? ==> journals == old(journals) && hasMore == old(hasMore)
    {
      if summaryOk {
        FetchJournals(0, page);
      }
    }

    /** "Load More", shown only while `hasMore` and enabled only when not
      loading, asks from the number of entries already shown. */
    method LoadMore(page: Option<Page>)
      requires hasMore && !isLoading
      modifies this
      ensures requested == old(requested) + [|old(journals)|] && !isLoading
      ensures page.Some? ==> journals == old(journals) + page.value.journals && hasMore == page.value.hasMore
      ensures page.None? ==> journals == old(journals) && hasMore == old(hasMore)
    {
      FetchJournals(|journals|, page);
    }
  }

  /** What is shown after a run of successful loads against a fixed server:
      the first load and `loads - 1` presses of "Load More". */
  function Shown(all: seq<JournalDoc>, size: nat, loads: nat): seq<JournalDoc>
    decreases loads
  {
    if loads == 0 then []
    else
      var before := Shown(all, size, loads - 1);
      before + ServerPage(all, size, |before|).journals
  }

  /** The page asked for at the end of a shown prefix continues it. */
  lemma NextPageExtends(all: seq<JournalDoc>, size: nat, m: nat)
    requires m <= |all|
    ensures var e := if m + size <= |all| then m + size else |all|;
      all[..m] + ServerPage(all, size, m).journals == all[..e]
  {
    var e := if m + size <= |all| then m + size else |all|;
    assert all[..m] + all[m..e] == all[..e];
  }

  /** How far into the server's list `loads` full-page loads reach. */
  function Reached(len: nat, size: nat, loads: nat): (n: nat)
    ensures n <= len
    decreases loads
  {
    if loads == 0 then 0
    else
      var m := Reached(len, size, loads - 1);
      if m + size <= len then m + size else len
  }

  lemma OneMorePage(loads: nat, size: nat)
    requires loads > 0
    ensures loads * size == (loads - 1) * size + size
  {
  }

  /** The loads reach `loads * size` entries, or the end of the list. */
  lemma {:induction false} ReachedIsProduct(len: nat, size: nat, loads: nat)
    ensures Reached(len, size, loads) == if loads * size <= len then loads * size else len
    decreases loads
  {
    if loads > 0 {
      ReachedIsProduct(len, size, loads - 1);
      OneMorePage(loads, size);
    }
  }

  /** Each load continues the shown prefix up to where it reaches. */
  lemma {:induction false} ShownReaches(all: seq<JournalDoc>, size: nat, loads: nat)
    ensures Shown(all, size, loads) == all[..Reached(|all|, size, loads)]
    decreases loads
  {
    if loads > 0 {
      ShownReaches(all, size, loads - 1);
      NextPageExtends(all, size, Reached(|all|, size, loads - 1));
    }
  }

  /** The accumulated list is always the start of the server's list, without
      gaps or repeats, and grows by a full page until it is complete. */
  lemma ShownIsPrefix(all: seq<JournalDoc>, size: nat, loads: nat)
    ensures var s := Shown(all, size, loads);
      var n := if loads * size <= |all| then loads * size else |all|;
      s == all[..n]
  {
    ShownReaches(all, size, loads);
    ReachedIsProduct(|all|, size, loads);
  }

  /** Against a fixed server, "Load More" stays on offer exactly until the
      whole list is shown: after the loads the flag says whether entries
      remain. */
  lemma MoreIffIncomplete(all: seq<JournalDoc>, size: nat, loads: nat)
    requires loads > 0
    ensures var before := Shown(all, size, loads - 1);
      ServerPage(all, size, |before|).hasMore <==> |Shown(all, size, loads)| < |all|
  {
    ShownReaches(all, size, loads - 1);
    ShownReaches(all, size, loads);
  }
}
