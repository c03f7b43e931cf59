/** The pager: hidden for a single page, a previous and a next button with their disabled conditions. */
module Pagination {
  import opened Wrappers

  datatype Button = Prev | Next

  /** `if (totalPages <= 1) return null`. */
  predicate IsRendered(totalPages: int) {
    totalPages > 1
  }

  predicate IsDisabled(b: Button, currentPage: int, totalPages: int) {
    match b
    case Prev => currentPage == 1
    case Next => currentPage == totalPages
  }

  /** The page a button asks for: `currentPage - 1` or `currentPage + 1`. */
  function Target(b: Button, currentPage: int): int {
    match b
    case Prev => currentPage - 1
    case Next => currentPage + 1
  }

  /** What a click passes to `onPageChange`, or None when the button is disabled. */
  function Click(b: Button, currentPage: int, totalPages: int): (r: Option<int>)
    ensures r.None? <==> IsDisabled(b, currentPage, totalPages)
    ensures r.Some? ==> r.value == Target(b, currentPage)
    ensures 1 <= currentPage <= totalPages && r.Some? ==> 1 <= r.value <= totalPages
  {
    if IsDisabled(b, currentPage, totalPages) then None else Some(Target(b, currentPage))
  }

  /**
   * Next is disabled only at exactly the last page: from a page beyond it (left there
   * by a deletion) Next stays enabled and moves further out.
   */
  lemma NextBeyondLastPage(currentPage: int, totalPages: int)
    requires currentPage > totalPages
    ensures Click(Next, currentPage, totalPages) == Some(currentPage + 1)
  {
  }
}
