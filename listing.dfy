/** The listing endpoint: one page of the catalog in title order, the total
    count, and whether more pages follow. The table is given as the sequence
    of its rows in ascending title order (what the store returns for
    `orderBy: { title: 'asc' }`); the count is its length. */
module Listing {
  import opened Common
  import opened Records

  const DefaultLimit := 50
  const DefaultPage := 1

  /** The JSON body `{songs, total, page, limit, hasMore}`. */
  datatype Listed = Listed(songs: seq<Song>, total: nat, page: int, limit: int, hasMore: bool)

  /** A page, or a query whose skip or take is negative: how the store
      answers those is not part of this model. */
  datatype ListResponse = Page(body: Listed) | OutOfModel(skip: int, take: int)

  function Min(a: int, b: int): int { if a <= b then a else b }
  function Max(a: int, b: int): int { if a >= b then a else b }

  /** `parseInt(searchParams.get(name) || fallback)` with the parameter
      already parsed: absent (or empty) gives the default. */
  function ParamOr(param: Option<int>, default: int): (v: int)
    ensures param.None? ==> v == default
    ensures param.Some? ==> v == param.value
  {
    if param.Some? then param.value else default
  }

  /** `(page - 1) * limit`: the rows of the earlier pages. */
  function Skip(page: int, limit: int): (skip: int)
    ensures page >= 1 && limit >= 0 ==> skip >= 0
    ensures page >= 1 && limit >= 0 ==> skip + limit == page * limit
  {
    (page - 1) * limit
  }

  /** `GET`: the page of `rows` (the table in title order) selected by the
      `limit` and `page` parameters. The page is the run of rows starting
      after the `skip` earlier rows, at most `limit` long; `total` counts the
      whole table; `page` and `limit` are echoed; `hasMore` is
      `skip + limit < total`. */
  function Get(rows: seq<Song>, limitParam: Option<int>, pageParam: Option<int>): (r: ListResponse)
    ensures var limit := ParamOr(limitParam, DefaultLimit);
            var page := ParamOr(pageParam, DefaultPage);
            var skip := Skip(page, limit);
            && (r.Page? <==> skip >= 0 && limit >= 0)
            && (r.Page? ==>
                  && r.body.total == |rows|
                  && r.body.page == page
                  && r.body.limit == limit
                  && |r.body.songs| == Min(limit, Max(0, |rows| - skip))
                  && (forall i :: 0 <= i < |r.body.songs| ==> r.body.songs[i] == rows[skip + i])
                  && (r.body.hasMore <==> skip + limit < |rows|))
  {
    var limit := ParamOr(limitParam, DefaultLimit);
    var page := ParamOr(pageParam, DefaultPage);
    var skip := Skip(page, limit);
    if skip < 0 || limit < 0 then OutOfModel(skip, limit)
    else
      var from := Min(skip, |rows|);
      var to := Min(skip + limit, |rows|);
      Page(Listed(rows[from..to], |rows|, page, limit, skip + limit < |rows|))
  }

  /** Without parameters the endpoint answers page 1 with up to 50 rows: the
      first 50 titles, with `hasMore` exactly when the table holds more. */
  lemma DefaultsGiveFirstFifty(rows: seq<Song>)
    ensures Get(rows, None, None).Page?
    ensures Get(rows, None, None).body.songs == rows[..Min(50, |rows|)]
    ensures Get(rows, None, None).body.page == 1 && Get(rows, None, None).body.limit == 50
    ensures Get(rows, None, None).body.hasMore <==> |rows| > 50
  {
  }

  /** `hasMore` says exactly that some row comes after the rows of this page. */
  lemma HasMoreIffRowsRemain(rows: seq<Song>, limitParam: Option<int>, pageParam: Option<int>)
    requires Get(rows, limitParam, pageParam).Page?
    ensures var b := Get(rows, limitParam, pageParam).body;
            b.hasMore <==> Skip(b.page, b.limit) + |b.songs| < b.total
  {
  }

  /** With a positive limit, `hasMore` is true exactly when the next page is
      not empty. */
  lemma HasMoreIffNextPageNonEmpty(rows: seq<Song>, limit: int, page: int)
    requires limit > 0 && page >= 1
    ensures Get(rows, Some(limit), Some(page)).Page? && Get(rows, Some(limit), Some(page + 1)).Page?
    ensures Get(rows, Some(limit), Some(page)).body.hasMore <==>
            Get(rows, Some(limit), Some(page + 1)).body.songs != []
  {
    assert Skip(page + 1, limit) == Skip(page, limit) + limit;
  }

  /** The rows of pages 1 to n, one after the other. */
  function PagesUpTo(rows: seq<Song>, limit: int, n: nat): seq<Song>
    requires limit > 0
  {
    if n == 0 then [] else PagesUpTo(rows, limit, n - 1) + Get(rows, Some(limit), Some(n)).body.songs
  }

  /** Pages 1 to n, put together, are the first n * limit rows (or all of
      them): no row is skipped and none is listed twice. */
  lemma {:induction false} PagesTile(rows: seq<Song>, limit: int, n: nat)
    requires limit > 0
    ensures PagesUpTo(rows, limit, n) == rows[..Min(n * limit, |rows|)]
  {
    if n > 0 {
      PagesTile(rows, limit, n - 1);
      var before := Min((n - 1) * limit, |rows|);
      var after := Min(n * limit, |rows|);
      assert n * limit == (n - 1) * limit + limit;
      var p := Get(rows, Some(limit), Some(n)).body.songs;
      assert p == rows[before..after];
      assert rows[..before] + rows[before..after] == rows[..after];
    }
  }

  /** Following `hasMore` from page 1 lists the whole table: when page n says
      no more, pages 1 to n hold every row in title order. */
  lemma LastPageCompletesListing(rows: seq<Song>, limit: int, n: nat)
    requires limit > 0 && n >= 1
    requires !Get(rows, Some(limit), Some(n)).body.hasMore
    ensures PagesUpTo(rows, limit, n) == rows
  {
    PagesTile(rows, limit, n);
    assert Skip(n, limit) + limit == n * limit;
    assert rows[..|rows|] == rows;
  }

  /** 120 songs, 50 per page: page 1 has 50 rows and more follow, page 3 has
      the last 20 and nothing follows. */
  lemma HundredTwentySongs(rows: seq<Song>)
    requires |rows| == 120
    ensures |Get(rows, Some(50), Some(1)).body.songs| == 50 && Get(rows, Some(50), Some(1)).body.hasMore
    ensures |Get(rows, Some(50), Some(3)).body.songs| == 20 && !Get(rows, Some(50), Some(3)).body.hasMore
    ensures Get(rows, Some(50), Some(3)).body.songs == rows[100..]
  {
  }

  /** `a` sorts before or with `b`, comparing characters by code. */
  predicate TitleLe(a: string, b: string)
    decreases |a|
  {
    |a| == 0 || (|b| > 0 && (a[0] < b[0] || (a[0] == b[0] && TitleLe(a[1..], b[1..]))))
  }

  predicate TitleOrdered(rows: seq<Song>) {
    forall i, j :: 0 <= i < j < |rows| ==> TitleLe(rows[i].title, rows[j].title)
  }

  /** A page of a title-ordered table is title-ordered. */
  lemma PageIsTitleOrdered(rows: seq<Song>, limitParam: Option<int>, pageParam: Option<int>)
    requires TitleOrdered(rows) && Get(rows, limitParam, pageParam).Page?
    ensures TitleOrdered(Get(rows, limitParam, pageParam).body.songs)
  {
    var b := Get(rows, limitParam, pageParam).body;
    var skip := Skip(b.page, b.limit);
    forall i, j | 0 <= i < j < |b.songs| ensures TitleLe(b.songs[i].title, b.songs[j].title) {
      assert b.songs[i] == rows[skip + i] && b.songs[j] == rows[skip + j];
    }
  }
}
