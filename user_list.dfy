/**
 * The list page's page navigation: which of the "previous" and "next"
 * buttons are enabled, and what pressing one does to the store.
 */
module UserList {
  import opened Wrappers
  import opened UsersContext

  /** The page is one the list page can show: from 1 up to the page count, page 1 being allowed on an empty list. */
  predicate InPageRange(s: State) {
    1 <= s.currentPage <= Max(1, TotalPages(s))
  }

  /** "Previous" is disabled only on page 1. */
  predicate PreviousEnabled(s: State) {
    s.currentPage != 1
  }

  /** "Next", as the page guards it: disabled only when the page equals the page count. */
  predicate NextEnabledAsWritten(s: State) {
    s.currentPage != TotalPages(s)
  }

  /** "Next", guarded so that it is disabled from the last page on. */
  predicate NextEnabled(s: State) {
    s.currentPage < TotalPages(s)
  }

  function PressPrevious(s: State): State {
    Reduce(s, Action.SetPage(s.currentPage - 1))
  }

  function PressNext(s: State): State {
    Reduce(s, Action.SetPage(s.currentPage + 1))
  }

  /**
   * With the guard as written, on any empty list shown at page 1 (page 1 of
   * 0: while the first load is in flight, or after it failed) "next" is
   * enabled and leads to page 2.
   */
  lemma NextAsWrittenLeavesRange(s: State)
    requires |s.allUsers| == 0 && s.currentPage == 1
    ensures InPageRange(s) && NextEnabledAsWritten(s)
    ensures PressNext(s).currentPage == 2 && !InPageRange(PressNext(s))
    ensures !NextEnabled(s)
  {
  }

  /** With the corrected guard, pressing an enabled button keeps the page in range and the list untouched; once there is a page, the two guards agree on every page in range. */
  lemma NavigationKeepsRange(s: State)
    requires InPageRange(s)
    ensures PreviousEnabled(s) ==> InPageRange(PressPrevious(s)) && PressPrevious(s).allUsers == s.allUsers
    ensures NextEnabled(s) ==> InPageRange(PressNext(s)) && PressNext(s).allUsers == s.allUsers
    ensures TotalPages(s) >= 1 ==> (NextEnabled(s) <==> NextEnabledAsWritten(s))
  {
  }
}
