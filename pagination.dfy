/**
 * `get_page_obj`: a listing cut into pages of ten, and the page chosen from the
 * request's `page` parameter the way Django's `Paginator.get_page` chooses it.
 */
module Pagination {

  /** `Paginator(posts, 10)`. */
  const PageSize: nat := 10

  /** The `page` query parameter: missing or empty, not an integer, or an integer. */
  datatype PageArg = Absent | NotANumber | Number(n: int)

  /** One page of a listing: its number, how many pages there are, and its items. */
  datatype Page<T> = Page(number: nat, numPages: nat, items: seq<T>)

  /** The fewest pages of `PageSize` that hold `count` items; an empty listing still has one page. */
  function NumPages(count: nat): (r: nat)
    ensures 1 <= r
    ensures count <= r * PageSize
    ensures count == 0 || (r - 1) * PageSize < count
    ensures count == 0 ==> r == 1
  {
    if count == 0 then 1 else (count + PageSize - 1) / PageSize
  }

  /**
   * The page number served: a missing parameter means page 1, a non-integer also
   * selects page 1, and an integer outside 1..numPages selects the last page.
   */
  function PageNumber(arg: PageArg, numPages: nat): (r: nat)
    requires 1 <= numPages
    ensures 1 <= r <= numPages
    ensures arg.Absent? || arg.NotANumber? ==> r == 1
    ensures arg.Number? && 1 <= arg.n <= numPages ==> r == arg.n
    ensures arg.Number? && (arg.n < 1 || numPages < arg.n) ==> r == numPages
  {
    match arg
    case Absent => 1
    case NotANumber => 1
    case Number(n) => if 1 <= n <= numPages then n else numPages
  }

  /** Index of the first item of page `number`. */
  function PageStart(number: nat): nat
    requires 1 <= number
  {
    (number - 1) * PageSize
  }

  /** Index just past the last item of page `number` in a listing of `count` items. */
  function PageEnd(number: nat, count: nat): nat {
    if number * PageSize < count then number * PageSize else count
  }

  function GetPageObj<T>(items: seq<T>, arg: PageArg): (p: Page<T>)
    ensures p.numPages == NumPages(|items|)
    ensures 1 <= p.number <= p.numPages
    ensures |p.items| <= PageSize
    ensures PageStart(p.number) <= PageEnd(p.number, |items|) <= |items|
    ensures p.items == items[PageStart(p.number)..PageEnd(p.number, |items|)]
    ensures arg.Absent? || arg.NotANumber? ==> p.number == 1
    ensures arg.Number? && 1 <= arg.n <= p.numPages ==> p.number == arg.n
    ensures arg.Number? && !(1 <= arg.n <= p.numPages) ==> p.number == p.numPages
    ensures |items| > 0 ==> |p.items| > 0
  {
    var numPages := NumPages(|items|);
    var number := PageNumber(arg, numPages);
    Page(number, numPages, items[PageStart(number)..PageEnd(number, |items|)])
  }

  /** Item `i` of a listing is item `i % 10` of page `i / 10 + 1`: every item can be reached. */
  lemma ItemOnItsPage<T>(items: seq<T>, i: nat)
    requires i < |items|
    ensures var p := GetPageObj(items, Number(i / PageSize + 1));
            p.number == i / PageSize + 1 && i % PageSize < |p.items| && p.items[i % PageSize] == items[i]
  {
  }

  /** The items of pages `k`, `k + 1`, ... up to the last page, one after the other. */
  ghost function PagesFrom<T>(items: seq<T>, k: nat): seq<T>
    requires 1 <= k <= NumPages(|items|) + 1
    decreases NumPages(|items|) + 1 - k
  {
    if k == NumPages(|items|) + 1 then []
    else GetPageObj(items, Number(k)).items + PagesFrom(items, k + 1)
  }

  lemma {:induction false} PagesFromIsSuffix<T>(items: seq<T>, k: nat)
    requires 1 <= k <= NumPages(|items|) + 1
    ensures PageEnd(k - 1, |items|) <= |items|
    ensures PagesFrom(items, k) == items[PageEnd(k - 1, |items|)..]
    decreases NumPages(|items|) + 1 - k
  {
    if k <= NumPages(|items|) {
      PagesFromIsSuffix(items, k + 1);
      var p := GetPageObj(items, Number(k));
      assert p.number == k;
      assert PageEnd(k - 1, |items|) == PageStart(k);
    }
  }

  /** The pages, read in order, give back the whole listing: no item is lost or repeated. */
  lemma PagesCoverListing<T>(items: seq<T>)
    ensures PagesFrom(items, 1) == items
  {
    PagesFromIsSuffix(items, 1);
  }
}
