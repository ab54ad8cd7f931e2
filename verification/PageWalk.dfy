/** Collecting a whole list page by page. */
module PageWalk {

  datatype Page<T> = Page(rows: seq<T>, totalPages: nat)

  function Min(a: int, b: int): int {
    if a < b then a else b
  }

  /** The page size the server uses: 50 when none is asked for, at most 200. */
  function ServedSize(requested: nat): (ps: nat)
    ensures 1 <= ps <= 200
    ensures 1 <= requested <= 200 ==> ps == requested
    ensures requested == 0 ==> ps == 50
    ensures requested > 200 ==> ps == 200
  {
    Min(if requested == 0 then 50 else requested, 200)
  }

  function CeilDiv(n: nat, d: nat): (q: nat)
    requires d > 0
  {
    (n + d - 1) / d
  }

  /** ceil(n / d) is the number of pages: all but the last are full, and the last is not empty. */
  lemma CeilDivBounds(n: nat, d: nat)
    requires d > 0
    ensures n <= CeilDiv(n, d) * d < n + d
  {
    var m := n + d - 1;
    assert m == (m / d) * d + m % d;
  }

  /** The server: skip the earlier pages, take one page, and report how many there are. */
  function Serve<T>(all: seq<T>, page: nat, requested: nat): Page<T>
    requires page >= 1
  {
    var ps := ServedSize(requested);
    var from := Min((page - 1) * ps, |all|);
    SkipIsNat(page - 1, ps);
    var pages := CeilDiv(|all|, ps);
    Page(all[from..Min(from + ps, |all|)], if pages < 1 then 1 else pages)
  }

  lemma SkipIsNat(k: nat, ps: nat)
    ensures 0 <= k * ps
  {
  }

  /** Before the last page is fetched there is more to come; once it is, everything is here. */
  lemma PagesLeft(n: nat, ps: nat, fetched: nat)
    requires ps > 0 && fetched >= 1
    ensures fetched < CeilDiv(n, ps) ==> fetched * ps < n
    ensures fetched >= CeilDiv(n, ps) ==> fetched * ps >= n
  {
    CeilDivBounds(n, ps);
    var pages := CeilDiv(n, ps);
    if fetched < pages {
      Monotone(fetched + 1, pages, ps);
      assert (fetched + 1) * ps == fetched * ps + ps;
    } else {
      Monotone(pages, fetched, ps);
    }
  }

  lemma Monotone(a: nat, b: nat, ps: nat)
    requires a <= b
    ensures a * ps <= b * ps
  {
  }

  /**
   * Over a fixed list, the walk ends with exactly the first maxRows rows in order,
   * and reports truncation exactly when there are more, for any page size.
   */
  method FetchAllPages<T>(all: seq<T>, pageSize: nat, maxRows: nat) returns (rows: seq<T>, truncated: bool)
    ensures rows == all[..Min(|all|, maxRows)]
    ensures truncated <==> |all| > maxRows
  {
    var ps := ServedSize(pageSize);
    var got: seq<T> := [];
    var page: int := 1;
    var totalPages: int := 1;
    var more := true;
    while more
      invariant page >= 1
      invariant 0 <= (page - 1) * ps && got == all[..Min((page - 1) * ps, |all|)]
      invariant page > 1 ==> totalPages == (if CeilDiv(|all|, ps) < 1 then 1 else CeilDiv(|all|, ps))
      invariant more <==> page == 1 || (page <= totalPages && |got| < maxRows)
      decreases if more then 1 else 0, if page == 1 then 1 else 0, totalPages - page
    {
      var res := Serve(all, page, pageSize);
      got := got + res.rows;
      totalPages := res.totalPages;
      assert (page + 1 - 1) * ps == (page - 1) * ps + ps;
      page := page + 1;
      more := page <= totalPages && |got| < maxRows;
    }
    PagesLeft(|all|, ps, page - 1);
    rows := got[..Min(|got|, maxRows)];
    truncated := page <= totalPages || |got| > maxRows;
  }
}
