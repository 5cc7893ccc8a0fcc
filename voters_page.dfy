// The arithmetic of the voter list page (frontend/src/pages/Voters.jsx):
// the page count, the window of page buttons, the Previous/Next clamps, and
// the regex-based identity-number formatter formatIC.
module VotersPage {
  import opened Text
  import opened Seqs
  import Helpers

  /** The page size the page requests. */
  const PageSize: nat := 20

  function Min(a: int, b: int): int { if a <= b then a else b }
  function Max(a: int, b: int): int { if a >= b then a else b }

  /** Math.ceil(total / 20): the fewest pages of 20 that hold total voters. */
  function TotalPages(total: nat): (pages: nat)
    ensures pages * PageSize >= total
    ensures pages > 0 ==> (pages - 1) * PageSize < total
  {
    (total + PageSize - 1) / PageSize
  }

  lemma TotalPagesExamples()
    ensures TotalPages(0) == 0 && TotalPages(1) == 1 && TotalPages(20) == 1
    ensures TotalPages(21) == 2 && TotalPages(45) == 3
  {
  }

  /** A JavaScript number as the page holds it: an integer or NaN. */
  datatype JsNumber = Finite(value: int) | NaN

  /** The parts of getAllVoters' JSON body the page could read: a top-level
      total (absent from the body the handler builds) and pagination.total. */
  datatype VotersBody = VotersBody(total: Option<nat>, paginationTotal: nat)

  /** The body the handler sends for total matching voters: the count sits
      under pagination only. */
  function HandlerBody(total: nat): (body: VotersBody)
    ensures body.total.None? && body.paginationTotal == total
  {
    VotersBody(None, total)
  }

  /** The page count as the page computes it, Math.ceil(response.data.total / 20):
      an undefined total divides to NaN. */
  function TotalPagesAsWritten(body: VotersBody): (pages: JsNumber)
    ensures body.total.None? <==> pages == NaN
    ensures body.total.Some? ==> pages == Finite(TotalPages(body.total.value))
  {
    match body.total
    case None => NaN
    case Some(t) => Finite(TotalPages(t))
  }

  /** The page count read from pagination.total, where the handler puts it. */
  function TotalPagesOf(body: VotersBody): (pages: nat)
    ensures pages * PageSize >= body.paginationTotal
    ensures pages > 0 ==> (pages - 1) * PageSize < body.paginationTotal
  {
    TotalPages(body.paginationTotal)
  }

  /** The pagination bar renders only when totalPages > 1; NaN > 1 is false. */
  predicate ShowsPagination(totalPages: JsNumber) {
    totalPages.Finite? && totalPages.value > 1
  }

  /** As written, the page count is NaN for every body the handler sends, so
      the pagination bar never renders and only the first 20 voters can be
      reached, even with 45 matches. */
  lemma PaginationHiddenAsWritten(total: nat)
    ensures TotalPagesAsWritten(HandlerBody(total)) == NaN
    ensures !ShowsPagination(TotalPagesAsWritten(HandlerBody(total)))
  {
  }

  /** Reading pagination.total, the bar renders exactly when the matches do
      not fit on one page of 20. */
  lemma PaginationShownWhenNeeded(total: nat)
    ensures ShowsPagination(Finite(TotalPagesOf(HandlerBody(total)))) <==> total > PageSize
  {
    var pages := TotalPagesOf(HandlerBody(total));
    if total > PageSize {
      assert pages * PageSize >= total;
    }
  }

  /** The first button: Math.max(1, Math.min(totalPages - 4, currentPage - 2)). */
  function WindowStart(currentPage: int, totalPages: nat): int {
    Max(1, Min(totalPages - 4, currentPage - 2))
  }

  /** The numbered buttons: Math.min(5, totalPages) of them from WindowStart.
      They run consecutively inside [1, totalPages] and include the current
      page whenever that page exists. */
  function PageButtons(currentPage: int, totalPages: nat): (buttons: seq<int>)
    ensures |buttons| == Min(5, totalPages)
    ensures forall i :: 0 <= i < |buttons| - 1 ==> buttons[i + 1] == buttons[i] + 1
    ensures forall i :: 0 <= i < |buttons| ==> 1 <= buttons[i] <= totalPages
    ensures 1 <= currentPage <= totalPages ==> currentPage in buttons
  {
    var start := WindowStart(currentPage, totalPages);
    var buttons := seq(Min(5, totalPages), i requires 0 <= i => start + i);
    assert 1 <= currentPage <= totalPages ==> buttons[currentPage - start] == currentPage;
    buttons
  }

  /** The current page sits in the middle of the window whenever the window
      does not have to stop at either end. */
  lemma PageButtonsCentred(currentPage: int, totalPages: nat)
    requires 3 <= currentPage <= totalPages - 2
    ensures PageButtons(currentPage, totalPages)[2] == currentPage
  {
  }

  /** Previous: Math.max(1, currentPage - 1). */
  function PreviousPage(currentPage: int): (p: int)
    ensures p >= 1
    ensures currentPage > 1 ==> p == currentPage - 1
    ensures currentPage <= 1 ==> p == 1
  {
    Max(1, currentPage - 1)
  }

  /** Next: Math.min(totalPages, currentPage + 1). */
  function NextPage(currentPage: int, totalPages: nat): (p: int)
    ensures p <= totalPages
    ensures currentPage < totalPages ==> p == currentPage + 1
    ensures currentPage >= totalPages ==> p == totalPages
  {
    Min(totalPages, currentPage + 1)
  }

  /** Previous and Next never leave the range of existing pages. */
  lemma ClampsStayInRange(currentPage: int, totalPages: nat)
    requires 1 <= currentPage <= totalPages
    ensures 1 <= PreviousPage(currentPage) <= totalPages
    ensures 1 <= NextPage(currentPage, totalPages) <= totalPages
  {
  }

  // ---------------------------------------------------------------------
  // formatIC: ic.replace(/(\d{6})(\d{2})(\d{4})/, '$1-$2-$3')

  /** Twelve consecutive digits start at position i. */
  predicate RunAt(s: string, i: nat) {
    i + 12 <= |s| && AllDigits(s[i..i + 12])
  }

  /** The leftmost position, from i on, where the pattern matches. */
  function FindRun(s: string, i: nat): (r: Option<nat>)
    ensures r.Some? ==> i <= r.value && RunAt(s, r.value)
    ensures r.Some? ==> forall j :: i <= j < r.value ==> !RunAt(s, j)
    ensures r.None? ==> forall j :: i <= j ==> !RunAt(s, j)
    decreases |s| - i
  {
    if i + 12 > |s| then None
    else if RunAt(s, i) then Some(i)
    else FindRun(s, i + 1)
  }

  /** The first run of twelve digits gets its dashes; a string without such a
      run is returned unchanged; a falsy ic gives ''. */
  function FormatIC(ic: string): (r: string)
    ensures ic == "" ==> r == ""
    ensures (forall j: nat :: !RunAt(ic, j)) ==> r == ic
    ensures forall i: nat :: RunAt(ic, i) && (forall j: nat :: j < i ==> !RunAt(ic, j)) ==>
      r == ic[..i] + Helpers.Dashed(ic[i..i + 12]) + ic[i + 12..]
  {
    if ic == "" then ""
    else match FindRun(ic, 0)
      case None => ic
      case Some(i) => ic[..i] + Helpers.Dashed(ic[i..i + 12]) + ic[i + 12..]
  }

  /** formatIC only inserts the two dashes: removing every dash gives the same
      text as removing every dash from the input. */
  lemma FormatICRemovesOnlyDashes(ic: string)
    ensures Helpers.RemoveDashes(FormatIC(ic)) == Helpers.RemoveDashes(ic)
  {
    var r := FindRun(ic, 0);
    if ic != "" && r.Some? {
      var i := r.value;
      assert ic == ic[..i] + ic[i..i + 12] + ic[i + 12..];
      RemoveDashesSplice(ic[..i], ic[i..i + 12], ic[i + 12..]);
    }
  }

  /** Dashing a run of twelve digits in the middle of a string leaves the
      dash-free text unchanged. */
  lemma RemoveDashesSplice(pre: string, run: string, post: string)
    requires |run| == 12 && AllDigits(run)
    ensures Helpers.RemoveDashes(pre + Helpers.Dashed(run) + post) == Helpers.RemoveDashes(pre + run + post)
  {
    Helpers.DashedRemoveDashes(run);
    Helpers.RemoveDashesDigits(run);
    RemoveDashesAround(pre, Helpers.Dashed(run), post);
    RemoveDashesAround(pre, run, post);
  }

  lemma RemoveDashesAround(a: string, b: string, c: string)
    ensures Helpers.RemoveDashes(a + b + c) ==
      Helpers.RemoveDashes(a) + Helpers.RemoveDashes(b) + Helpers.RemoveDashes(c)
  {
    Helpers.RemoveDashesAppend(a, b);
    Helpers.RemoveDashesAppend(a + b, c);
  }

  /** On a bare twelve-digit number the page's formatter and the shared
      helper formatICNumber agree. */
  lemma FormatICAgreesWithHelper(ic: string)
    requires IsDigitRun(ic, 12)
    ensures FormatIC(ic) == Helpers.FormatICNumber(ic)
  {
    assert RunAt(ic, 0) by {
      assert ic[0..12] == ic;
    }
    assert ic[0..12] == ic;
  }
}
