/** `LIMIT perPage OFFSET (page - 1) * perPage`, applied to an ordered result. */
module Paging {

  function Min(a: int, b: int): (r: int)
  {
    if a <= b then a else b
  }

  /** The number of rows skipped before page `page`; never negative, since pages start at 1. */
  function Offset(page: int, perPage: int): (o: int)
    requires page >= 1 && perPage >= 1
    ensures o >= 0
    ensures page == 1 ==> o == 0
  {
    (page - 1) * perPage
  }

  /**
   * One page: at most `perPage` rows, taken from `s` in order starting at the
   * offset; empty once the offset reaches the end.
   */
  function Page<T>(s: seq<T>, page: int, perPage: int): (r: seq<T>)
    requires page >= 1 && perPage >= 1
    ensures |r| <= perPage
    ensures Offset(page, perPage) >= |s| ==> r == []
    ensures Offset(page, perPage) < |s| ==> |r| == Min(perPage, |s| - Offset(page, perPage))
    ensures forall i :: 0 <= i < |r| ==> Offset(page, perPage) + i < |s| && r[i] == s[Offset(page, perPage) + i]
  {
    var offset := Offset(page, perPage);
    if offset >= |s| then [] else s[offset..Min(offset + perPage, |s|)]
  }

  /** Pages 1 to `k`, joined in order. */
  function PagesUpTo<T>(s: seq<T>, k: nat, perPage: int): (r: seq<T>)
    requires perPage >= 1
  {
    if k == 0 then [] else PagesUpTo(s, k - 1, perPage) + Page(s, k, perPage)
  }

  lemma NextOffset(k: nat, perPage: int)
    ensures k * perPage == (k - 1) * perPage + perPage
  {
  }

  /** The first `k` pages tile the front of `s`: no row is skipped or repeated between pages. */
  lemma {:induction false} PagesTile<T>(s: seq<T>, k: nat, perPage: int)
    requires perPage >= 1
    ensures PagesUpTo(s, k, perPage) == s[..Min(k * perPage, |s|)]
  {
    if k > 0 {
      PagesTile(s, k - 1, perPage);
      var before := (k - 1) * perPage;
      var after := k * perPage;
      NextOffset(k, perPage);
      assert Offset(k, perPage) == before;
      var page := Page(s, k, perPage);
      if before >= |s| {
        assert page == [];
        assert Min(before, |s|) == |s| == Min(after, |s|);
      } else {
        var end := Min(after, |s|);
        assert page == s[before..end];
        assert s[..end] == s[..before] + s[before..end];
      }
    }
  }

  /** Enough pages to reach the end list every row of `s` exactly once, in order. */
  lemma PagesCoverAll<T>(s: seq<T>, k: nat, perPage: int)
    requires perPage >= 1
    requires k * perPage >= |s|
    ensures PagesUpTo(s, k, perPage) == s
  {
    PagesTile(s, k, perPage);
  }

  /** A page is a contiguous part of `s`, so it holds no row more often than `s` does. */
  lemma PageIsSubMultiset<T>(s: seq<T>, page: int, perPage: int)
    requires page >= 1 && perPage >= 1
    ensures multiset(Page(s, page, perPage)) <= multiset(s)
  {
    var offset := Offset(page, perPage);
    if offset < |s| {
      var end := Min(offset + perPage, |s|);
      assert s == s[..offset] + s[offset..end] + s[end..];
    }
  }
}
