/** The document list of the knowledge-base page (RagUpload.tsx): search by
    name, the type tabs, and the pagination with its page-change guard. */
module DocumentList {
  import opened Strings
  import Js
  import opened Lists
  import opened Documents

  datatype Tab = All | Pdf | Docx | Txt | Images

  datatype View = Grid | Rows

  /** Items per page: twelve cards in the grid, ten rows in the list. */
  function PageSize(view: View): nat {
    if view == Grid then 12 else 10
  }

  /** The name contains the search term, both lower-cased. */
  predicate NameMatches(d: Document, term: string) {
    Contains(Js.ToLower(d.name), Js.ToLower(term))
  }

  /** The searched list: every document when the term is empty, otherwise
      the documents whose name matches, in their original order. */
  function Filtered(docs: seq<Document>, term: string): seq<Document> {
    if term == "" then docs else Keep(docs, (d: Document) => NameMatches(d, term))
  }

  /** The empty term is contained in every name, so the shortcut for an
      empty search agrees with filtering: the searched list is always the
      documents whose name matches. */
  lemma FilteredIsSearch(docs: seq<Document>, term: string)
    ensures Filtered(docs, term) == Keep(docs, (d: Document) => NameMatches(d, term))
  {
    if term == "" {
      forall i | 0 <= i < |docs| ensures NameMatches(docs[i], term) {
        assert OccursAt(Js.ToLower(docs[i].name), Js.ToLower(term), 0);
      }
      KeepAll(docs, (d: Document) => NameMatches(d, term));
    }
  }

  /** Membership of a tab, by exact (case-sensitive) type. */
  predicate InTab(d: Document, tab: Tab) {
    match tab
    case All => true
    case Pdf => d.docType == "pdf"
    case Docx => d.docType == "docx"
    case Txt => d.docType == "txt"
    case Images => d.docType == "png" || d.docType == "jpg" || d.docType == "jpeg"
  }

  /** The documents a tab shows for a search term. */
  function Bucket(docs: seq<Document>, term: string, tab: Tab): seq<Document> {
    var filtered := Filtered(docs, term);
    if tab == All then filtered else Keep(filtered, (d: Document) => InTab(d, tab))
  }

  /** Every tab shows an order-preserving selection of the documents: each
      copy of a document that matches the search and the tab, and nothing
      else. */
  lemma BucketIsSelection(docs: seq<Document>, term: string, tab: Tab)
    ensures Subsequence(Bucket(docs, term, tab), docs)
    ensures forall d :: (multiset(Bucket(docs, term, tab))[d]
      == if NameMatches(d, term) && InTab(d, tab) then multiset(docs)[d] else 0)
  {
    var search := (d: Document) => NameMatches(d, term);
    var inTab := (d: Document) => InTab(d, tab);
    FilteredIsSearch(docs, term);
    var filtered := Filtered(docs, term);
    KeepIsSubsequence(docs, search);
    KeepMultiset(docs, search);
    if tab != All {
      KeepIsSubsequence(filtered, inTab);
      KeepMultiset(filtered, inTab);
      SubsequenceTrans(Bucket(docs, term, tab), filtered, docs);
    }
  }

  /** Searching and picking a tab can be done in either order. */
  lemma SearchAndTabCommute(docs: seq<Document>, term: string, tab: Tab)
    requires tab != All
    ensures Bucket(docs, term, tab)
      == Keep(Keep(docs, (d: Document) => InTab(d, tab)), (d: Document) => NameMatches(d, term))
  {
    FilteredIsSearch(docs, term);
    KeepCommutes(docs, (d: Document) => NameMatches(d, term), (d: Document) => InTab(d, tab));
  }

  /** The image test used for previews lower-cases the type first. */
  predicate IsImage(docType: string) {
    var t := Js.ToLower(docType);
    t == "png" || t == "jpg" || t == "jpeg"
  }

  /** So a document of type "PNG" gets an image preview but is not listed
      under the images tab. */
  lemma UpperCaseImageType(d: Document)
    requires d.docType == "PNG"
    ensures IsImage(d.docType) && !InTab(d, Images)
  {
    assert Js.ToLower(d.docType) == "png";
  }

  /** `Math.ceil(n / k)`. */
  function TotalPages(n: nat, k: nat): (r: nat)
    requires k > 0
    ensures n <= r * k < n + k
  {
    var q := (n + k - 1) / k;
    assert n + k - 1 == q * k + (n + k - 1) % k;
    q
  }

  /** Page `page` (counted from 1) of a list, `k` items per page: the
      slice from `(page - 1) * k` to `k` items further. */
  function Page(items: seq<Document>, page: nat, k: nat): (r: seq<Document>)
    requires page >= 1 && k > 0
    ensures |r| <= k
    ensures (page - 1) * k >= |items| ==> r == []
    ensures (page - 1) * k < |items| ==> (
      var lo := (page - 1) * k;
      r == items[lo..if lo + k <= |items| then lo + k else |items|])
  {
    var start := (page - 1) * k;
    Js.Slice(items, start, start + k)
  }

  /** Pages `page` to the last, concatenated. */
  function PagesFrom(items: seq<Document>, page: nat, k: nat): seq<Document>
    requires page >= 1 && k > 0
    decreases TotalPages(|items|, k) + 1 - page
  {
    if page > TotalPages(|items|, k) then [] else Page(items, page, k) + PagesFrom(items, page + 1, k)
  }

  lemma MulMonotone(a: nat, b: nat, k: nat)
    requires a <= b
    ensures a * k <= b * k
  {
    assert b * k - a * k == (b - a) * k;
  }

  /** Pages up to the last one start inside the list; the page after the
      last one starts at or past its end. */
  lemma PageStart(n: nat, k: nat, page: nat)
    requires k > 0 && 1 <= page <= TotalPages(n, k) + 1
    ensures page <= TotalPages(n, k) <==> (page - 1) * k < n
  {
    var total := TotalPages(n, k);
    if page <= total {
      MulMonotone(page - 1, total - 1, k);
      assert (total - 1) * k == total * k - k;
    } else {
      assert page - 1 == total;
    }
  }

  lemma {:induction false} PagesFromSuffix(items: seq<Document>, page: nat, k: nat)
    requires k > 0 && 1 <= page <= TotalPages(|items|, k) + 1
    ensures PagesFrom(items, page, k) == items[if (page - 1) * k <= |items| then (page - 1) * k else |items|..]
    decreases TotalPages(|items|, k) + 1 - page
  {
    var lo := (page - 1) * k;
    PageStart(|items|, k, page);
    if page <= TotalPages(|items|, k) {
      assert page * k == lo + k;
      PagesFromSuffix(items, page + 1, k);
      var hi := if lo + k <= |items| then lo + k else |items|;
      assert items[lo..] == items[lo..hi] + items[hi..];
    }
  }

  /** Reading pages 1 to `TotalPages` in turn shows the whole list once, in
      order. */
  lemma PagesCoverList(items: seq<Document>, k: nat)
    requires k > 0
    ensures PagesFrom(items, 1, k) == items
  {
    PagesFromSuffix(items, 1, k);
    assert (1 - 1) * k == 0;
  }

  /** The list controls: search term, active tab, view and current page. */
  datatype ListState = ListState(term: string, tab: Tab, view: View, page: nat)

  const Initial := ListState("", All, Grid, 1)

  function Shown(docs: seq<Document>, s: ListState): seq<Document> {
    Bucket(docs, s.term, s.tab)
  }

  function LastPage(docs: seq<Document>, s: ListState): nat {
    TotalPages(|Shown(docs, s)|, PageSize(s.view))
  }

  /** `handlePageChange`: only a page between 1 and the last page is
      accepted; anything else leaves the state as it was. */
  function ChangePage(docs: seq<Document>, s: ListState, page: int): (r: ListState)
    ensures r == s || (page > 0 && r == s.(page := page))
    ensures r.page == page <==> 1 <= page <= LastPage(docs, s) || page == s.page
  {
    if 0 < page <= LastPage(docs, s) then s.(page := page) else s
  }

  /** Changing the search term, the tab or the view returns to page 1. */
  function SetTerm(s: ListState, term: string): ListState {
    s.(term := term, page := 1)
  }

  function SetTab(s: ListState, tab: Tab): ListState {
    s.(tab := tab, page := 1)
  }

  function SetView(s: ListState, view: View): ListState {
    s.(view := view, page := 1)
  }

  /** The page is 1, or a page that exists for the current list. */
  predicate PageInRange(docs: seq<Document>, s: ListState) {
    s.page == 1 || 1 <= s.page <= LastPage(docs, s)
  }

  /** Every control keeps the page in range, starting from the initial
      state; an in-range page of a non-empty list is never empty. */
  lemma PageStaysInRange(docs: seq<Document>, s: ListState, page: int, term: string, tab: Tab, view: View)
    requires PageInRange(docs, s)
    ensures PageInRange(docs, Initial)
    ensures PageInRange(docs, ChangePage(docs, s, page))
    ensures PageInRange(docs, SetTerm(s, term)) && PageInRange(docs, SetTab(s, tab)) && PageInRange(docs, SetView(s, view))
    ensures Shown(docs, s) != [] ==> Page(Shown(docs, s), s.page, PageSize(s.view)) != []
  {
    var items, k := Shown(docs, s), PageSize(s.view);
    if items != [] {
      if s.page == 1 {
        assert items[0..if k <= |items| then k else |items|] != [];
      } else {
        assert (s.page - 1) * k <= (LastPage(docs, s) - 1) * k;
        var lo := (s.page - 1) * k;
        assert items[lo..if s.page * k <= |items| then s.page * k else |items|] != [];
      }
    }
  }
}
