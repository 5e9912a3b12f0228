/**
 * The slide registry: the fixed, ordered list of slide ids. Index 0 is the loading
 * sentinel and the last index the ending sentinel; the cover sits at 1 and the
 * content slides page1 .. page11 at 2 .. 12.
 */
module Slides {
  import JsText

  const Pages: seq<string> := [
    "loading", "cover", "page1", "page2", "page3", "page4", "page5",
    "page6", "page7", "page8", "page9", "page10", "page11", "ending"
  ]

  /** `pages.indexOf(id)` finds the id. By the contract of `IndexOf` this is the same
      as `id in Pages`, stated in the form the script computes. */
  predicate Registered(id: string) {
    JsText.IndexOf(Pages, id) != -1
  }

  predicate Distinct<T(==)>(s: seq<T>) {
    forall i, j :: 0 <= i < j < |s| ==> s[i] != s[j]
  }

  /** A content slide id: "page" followed by its number. */
  predicate IsContentSlide(id: string) {
    |id| > 4 && id[..4] == "page"
  }

  /** The shape of the registry: fourteen distinct ids, loading first, cover second, ending last,
      and content slides exactly at the indices strictly between the cover and the ending. */
  lemma PagesShape()
    ensures |Pages| == 14
    ensures Pages[0] == "loading" && Pages[1] == "cover" && Pages[|Pages| - 1] == "ending"
    ensures Distinct(Pages)
    ensures forall i :: 0 <= i < |Pages| ==> (IsContentSlide(Pages[i]) <==> 2 <= i <= |Pages| - 2)
  {
    assert Pages[0][..4] == "load" && Pages[1][..4] == "cove" && Pages[13][..4] == "endi";
    forall i | 2 <= i <= 12 ensures IsContentSlide(Pages[i]) {
      assert Pages[i][..4] == "page";
    }
  }

  /** In a list of distinct ids, `indexOf` of the id at position `i` is `i`. */
  lemma IndexOfDistinct<T>(s: seq<T>, i: int)
    requires Distinct(s) && 0 <= i < |s|
    ensures JsText.IndexOf(s, s[i]) == i
  {
  }
}
