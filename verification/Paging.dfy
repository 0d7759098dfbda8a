/** Walking a paginated list endpoint. */
module Paging {
  import opened Text

  /** A Go `int`, which is what the decoded `pagination.total` is. */
  type Int64 = x: int | -0x8000_0000_0000_0000 <= x < 0x8000_0000_0000_0000

  const MAX := 0x7FFF_FFFF_FFFF_FFFF

  /** The answer to one page request. A missing pagination object reads as total 0. */
  datatype Reply<+T> = RequestFailed | MalformedReply | Page(batch: seq<T>, total: Int64)

  datatype Outcome<+T> = Outcome(items: Option<seq<T>>, requests: nat)

  /** The answers the loop collects from `page` on, with `all` collected before. Every further
      request needs a non-empty batch that stays below a total, so it ends. */
  function Collect<T>(server: nat -> Reply<T>, page: nat, all: seq<T>): Outcome<T>
    decreases MAX - |all|
  {
    match server(page)
    case RequestFailed => Outcome(None, 1)
    case MalformedReply => Outcome(None, 1)
    case Page(batch, total) =>
      var now := all + batch;
      if total == 0 || |now| >= total || |batch| == 0 then Outcome(Some(now), 1)
      else
        var rest := Collect(server, page + 1, now);
        Outcome(rest.items, rest.requests + 1)
  }

  method ListPaginated<T>(server: nat -> Reply<T>) returns (r: Outcome<T>)
    ensures r == Collect(server, 1, [])
  {
    var page: nat := 1;
    var all: seq<T> := [];
    ghost var whole := Collect(server, 1, []);
    while true
      invariant page >= 1 && whole.items == Collect(server, page, all).items
      invariant whole.requests == page - 1 + Collect(server, page, all).requests
      decreases MAX - |all|
    {
      var reply := server(page);
      if reply.RequestFailed? { return Outcome(None, page); }
      if reply.MalformedReply? { return Outcome(None, page); }
      var batch, total := reply.batch, reply.total;
      all := all + batch;
      if total == 0 || |all| >= total { break; }
      if |batch| == 0 { break; }
      page := page + 1;
    }
    return Outcome(Some(all), page);
  }

  // ---- against any server ----

  /** What the pages `from` to `to`, the last left out, hold together. */
  function Batches<T>(server: nat -> Reply<T>, from: nat, to: nat): seq<T>
    decreases if from < to then to - from else 0
  {
    if from >= to then []
    else (if server(from).Page? then server(from).batch else []) + Batches(server, from + 1, to)
  }

  /** A page after which nothing more is asked for: no total, the total reached, or nothing on it. */
  predicate Final<T>(reply: Reply<T>, collected: nat) {
    reply.Page? && (reply.total == 0 || collected >= reply.total || reply.batch == [])
  }

  /** Everything collected when page `k` has been read. */
  function Got<T>(server: nat -> Reply<T>, page: nat, all: seq<T>, k: nat): seq<T> {
    all + Batches(server, page, k + 1)
  }

  predicate GoesOn<T>(server: nat -> Reply<T>, page: nat, all: seq<T>, k: nat) {
    server(k).Page? && !Final(server(k), |Got(server, page, all, k)|)
  }

  lemma GotFirst<T>(server: nat -> Reply<T>, page: nat, all: seq<T>)
    requires server(page).Page?
    ensures Got(server, page, all, page) == all + server(page).batch
  {
    assert Batches(server, page, page + 1) == server(page).batch + Batches(server, page + 1, page + 1);
  }

  lemma GotNext<T>(server: nat -> Reply<T>, page: nat, all: seq<T>, k: nat)
    requires server(page).Page? && page < k
    ensures Got(server, page, all, k) == Got(server, page + 1, all + server(page).batch, k)
  {
    assert Batches(server, page, k + 1) == server(page).batch + Batches(server, page + 1, k + 1);
  }

  /** Main result, for any server: pages are asked for in order up to the first that fails, cannot
      be read or is final. A failed or unreadable one loses everything; otherwise the result is what
      all the pages hold, in order. */
  lemma {:induction false} WalkEndsWhere<T>(server: nat -> Reply<T>, page: nat, all: seq<T>)
    ensures var r := Collect(server, page, all);
      var last := page + r.requests - 1;
      && r.requests >= 1
      && (forall k :: page <= k < last ==> GoesOn(server, page, all, k))
      && (server(last).Page? ==>
            && Final(server(last), |Got(server, page, all, last)|)
            && r.items == Some(Got(server, page, all, last)))
      && (!server(last).Page? ==> r.items == None)
    decreases MAX - |all|
  {
    hide Got, Batches;
    if server(page).Page? {
      var now := all + server(page).batch;
      GotFirst(server, page, all);
      if !Final(server(page), |now|) {
        WalkEndsWhere(server, page + 1, now);
        var last := page + Collect(server, page, all).requests - 1;
        assert page < last;
        GotNext(server, page, all, last);
        forall k | page <= k < last ensures GoesOn(server, page, all, k) {
          if k > page {
            GotNext(server, page, all, k);
            assert GoesOn(server, page + 1, now, k);
          }
        }
      }
    }
  }

  /** Main result: if no reply claims more than `bound` entries, at most `bound` + 1 requests
      are made, whatever the server answers. */
  lemma {:induction false} StopsInTime<T>(server: nat -> Reply<T>, bound: nat, page: nat, all: seq<T>)
    requires forall k :: server(k).Page? ==> server(k).total <= bound
    requires |all| <= bound
    ensures Collect(server, page, all).requests <= bound - |all| + 1
    decreases bound - |all|
  {
    match server(page)
    case Page(batch, total) =>
      var now := all + batch;
      if !(total == 0 || |now| >= total || |batch| == 0) {
        StopsInTime(server, bound, page + 1, now);
      }
    case _ =>
  }

  // ---- against a fixed list ----

  function Min(a: int, b: int): int {
    if a < b then a else b
  }

  /** How many pages of size `c` hold `n` entries. */
  function Pages(n: int, c: nat): nat
    requires c >= 1
    decreases if n > 0 then n else 0
  {
    if n <= 0 then 0 else 1 + Pages(n - c, c)
  }

  lemma {:induction false} PagesCover(n: int, c: nat, k: nat)
    requires c >= 1
    ensures k * c >= n <==> k >= Pages(n, c)
    decreases if n > 0 then n else 0
  {
    if n > 0 {
      if k == 0 {
        assert k * c == 0;
      } else {
        assert k * c == (k - 1) * c + c;
        PagesCover(n - c, c, k - 1);
      }
    } else {
      assert k * c >= 0;
    }
  }

  /** Where page `k` ends in a list of `n` entries. */
  function End(n: nat, c: nat, k: nat): (e: nat)
    ensures e <= n
  {
    if k * c < n then k * c else n
  }

  lemma EndsAscend(n: nat, c: nat, k: nat)
    requires k >= 1
    ensures End(n, c, k - 1) <= End(n, c, k)
  {
    assert k * c == (k - 1) * c + c;
  }

  /** A server that serves a fixed list in pages of size `c` and reports the same total always. */
  function FixedServer<T>(list: seq<T>, c: nat, total: Int64): nat -> Reply<T> {
    (k: nat) =>
      if k == 0 then Page([], total)
      else
        EndsAscend(|list|, c, k);
        Page(list[End(|list|, c, k - 1)..End(|list|, c, k)], total)
  }

  /** The number of requests made. */
  function Rounds(n: nat, c: nat, total: int): nat
    requires c >= 1
  {
    if total <= 0 then 1 else if total <= n then Pages(total, c) else Pages(n, c) + 1
  }

  /** How far into a list of `n` entries the pages get that reach a total. */
  function Reached(n: nat, c: nat, total: int): (r: nat)
    requires c >= 1
    ensures r <= n
  {
    Min(n, c * Pages(total, c))
  }

  /** After page `k` the loop stops exactly when `k` is the stated number of requests. */
  lemma StopsAtRounds(n: nat, c: nat, total: Int64, k: nat)
    requires c >= 1 && 1 <= k <= Rounds(n, c, total)
    ensures (total == 0 || End(n, c, k) >= total || End(n, c, k) == End(n, c, k - 1)) <==> k == Rounds(n, c, total)
  {
    hide Pages;
    PagesCover(n, c, k - 1);
    PagesCover(n, c, k);
    if total > 0 {
      PagesCover(total, c, k - 1);
      PagesCover(total, c, k);
    }
    assert k * c == (k - 1) * c + c;
  }

  /** What the server answers for page `k`, and that it takes what has been collected to its end. */
  lemma PageOf<T>(list: seq<T>, c: nat, total: Int64, k: nat)
    requires k >= 1
    ensures var n := |list|;
      var reply := FixedServer(list, c, total)(k);
      && reply.Page? && reply.total == total
      && list[..End(n, c, k - 1)] + reply.batch == list[..End(n, c, k)]
      && |reply.batch| == End(n, c, k) - End(n, c, k - 1)
  {
    hide End;
    EndsAscend(|list|, c, k);
  }

  lemma {:induction false} CollectFixed<T>(list: seq<T>, c: nat, total: Int64, k: nat)
    requires c >= 1 && 1 <= k <= Rounds(|list|, c, total)
    ensures var n := |list|;
      var rounds := Rounds(n, c, total);
      Collect(FixedServer(list, c, total), k, list[..End(n, c, k - 1)])
        == Outcome(Some(list[..End(n, c, rounds)]), rounds - k + 1)
    decreases Rounds(|list|, c, total) - k
  {
    hide End, Rounds, FixedServer;
    PageOf(list, c, total, k);
    StopsAtRounds(|list|, c, total, k);
    if k < Rounds(|list|, c, total) {
      CollectFixed(list, c, total, k + 1);
    }
  }

  /** The whole walk: how many requests, and how far into the list it gets. */
  lemma Collected<T>(list: seq<T>, c: nat, total: Int64)
    requires c >= 1
    ensures var rounds := Rounds(|list|, c, total);
      Collect(FixedServer(list, c, total), 1, []) == Outcome(Some(list[..End(|list|, c, rounds)]), rounds)
  {
    hide Collect, FixedServer;
    if total > 0 { PagesCover(total, c, 0); }
    CollectFixed(list, c, total, 1);
    assert list[..End(|list|, c, 0)] == [];
  }

  /** The end of the last page, for each relation of the total to the length. */
  lemma EndOfRounds(n: nat, c: nat, total: Int64)
    requires c >= 1
    ensures var e := End(n, c, Rounds(n, c, total));
      e == if total >= n && total > 0 then n else if total > 0 then Reached(n, c, total) else Min(n, c)
  {
    hide Pages;
    var rounds := Rounds(n, c, total);
    assert rounds * c == c * rounds && 1 * c == c;
    if total >= n && total > 0 { PagesCover(n, c, rounds); }
  }

  /** A total of N or more: the whole list. */
  lemma WholeList<T>(list: seq<T>, c: nat, total: Int64)
    requires c >= 1 && total >= |list|
    ensures var r := Collect(FixedServer(list, c, total), 1, []);
      && r.items == Some(list)
      && r.requests == if total == 0 then 1 else if total == |list| then Pages(|list|, c) else Pages(|list|, c) + 1
  {
    hide Collect, FixedServer, Pages, End;
    Collected(list, c, total);
    EndOfRounds(|list|, c, total);
    assert list[..|list|] == list;
  }

  /** A smaller positive total: the pages that reach it. */
  lemma ShortList<T>(list: seq<T>, c: nat, total: Int64)
    requires c >= 1 && 0 < total < |list|
    ensures Collect(FixedServer(list, c, total), 1, [])
         == Outcome(Some(list[..Reached(|list|, c, total)]), Pages(total, c))
  {
    hide Collect, FixedServer, Pages, End;
    Collected(list, c, total);
    EndOfRounds(|list|, c, total);
  }

  /** No total: the first page. */
  lemma FirstPage<T>(list: seq<T>, c: nat, total: Int64)
    requires c >= 1 && total <= 0
    ensures Collect(FixedServer(list, c, total), 1, []) == Outcome(Some(list[..Min(|list|, c)]), 1)
  {
    hide Collect, FixedServer, Pages, End;
    Collected(list, c, total);
    EndOfRounds(|list|, c, total);
  }

  /** Main result: against a fixed list of N entries served in pages of size c with total T,
      a total of N or more gives the whole list, a smaller positive one the entries of the
      ceil(T/c) pages that reach it, and the number of requests is exactly as stated. */
  lemma PaginationResult<T>(list: seq<T>, c: nat, total: Int64)
    requires c >= 1
    ensures var n := |list|;
      var r := Collect(FixedServer(list, c, total), 1, []);
      && (total == n ==> r == Outcome(Some(list), if n == 0 then 1 else Pages(n, c)))
      && (total > n ==> r == Outcome(Some(list), Pages(n, c) + 1))
      && (0 < total < n ==> r == Outcome(Some(list[..Reached(n, c, total)]), Pages(total, c)))
      && (total <= 0 ==> r == Outcome(Some(list[..Min(n, c)]), 1))
  {
    hide *;
    if total >= |list| { WholeList(list, c, total); } else if total > 0 { ShortList(list, c, total); }
    if total <= 0 { FirstPage(list, c, total); }
  }
}
