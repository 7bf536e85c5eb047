/** Paging through the push configurations of a task
    (`list_push_configs`, a2a-server/src/handler.rs; a2a-server/src/pagination.rs). */
module Paging {
  import opened Wrappers
  import opened Types
  import opened Decimal
  import opened Sorting

  const DEFAULT_PAGE_SIZE := 50
  const MAX_PAGE_SIZE := 100

  /** `resolve_page_size`: what is served for what is asked. */
  function ResolvedPageSize(requested: Option<int>): (size: nat)
    ensures 1 <= size <= MAX_PAGE_SIZE
    ensures requested.Some? && 1 <= requested.value <= MAX_PAGE_SIZE ==> size == requested.value
    ensures requested.Some? && requested.value > MAX_PAGE_SIZE ==> size == MAX_PAGE_SIZE
    ensures requested.None? || requested.value <= 0 ==> size == DEFAULT_PAGE_SIZE
  {
    if requested.Some? && requested.value > 0 then
      if requested.value < MAX_PAGE_SIZE then requested.value else MAX_PAGE_SIZE
    else DEFAULT_PAGE_SIZE
  }

  datatype PushConfig = PushConfig(id: Option<string>, url: string, token: Option<string>)

  datatype Page = Page(configs: seq<PushConfig>, next: Option<string>)

  function StringLe(a: string, b: string): bool {
    a == "" || (b != "" && (a[0] < b[0] || (a[0] == b[0] && StringLe(a[1..], b[1..]))))
  }

  /** By id, those without one first. */
  function IdLe(a: PushConfig, b: PushConfig): bool {
    a.id.None? || (b.id.Some? && StringLe(a.id.value, b.id.value))
  }

  lemma {:induction false} StringLeIsTotal(a: string, b: string)
    ensures StringLe(a, b) || StringLe(b, a)
  {
    if a != "" && b != "" { StringLeIsTotal(a[1..], b[1..]); }
  }

  lemma {:induction false} StringLeIsTransitive(a: string, b: string, c: string)
    requires StringLe(a, b) && StringLe(b, c)
    ensures StringLe(a, c)
  {
    if a != "" && a[0] == b[0] == c[0] { StringLeIsTransitive(a[1..], b[1..], c[1..]); }
  }

  lemma IdLeIsPreorder()
    ensures TotalPreorder(IdLe)
  {
    forall a, b ensures IdLe(a, b) || IdLe(b, a) {
      if a.id.Some? && b.id.Some? { StringLeIsTotal(a.id.value, b.id.value); }
    }
    forall a, b, c | IdLe(a, b) && IdLe(b, c) ensures IdLe(a, c) {
      if a.id.Some? { StringLeIsTransitive(a.id.value, b.id.value, c.id.value); }
    }
  }

  function Min(a: nat, b: nat): nat {
    if a < b then a else b
  }

  /** Where a token's page starts; None for a token that is no number. */
  function StartOf(token: Option<string>, total: nat): Option<nat> {
    match token
    case None => Some(0)
    case Some(text) => if ParsedU64(text).None? then None else Some(Min(ParsedU64(text).value, total))
  }

  /** One page of a list. */
  function PageOf(all: seq<PushConfig>, requested: Option<int>, token: Option<string>): Result<Page, A2AError> {
    match StartOf(token, |all|)
    case None => Err(Error(INVALID_PARAMS))
    case Some(start) =>
      var end := Min(start + ResolvedPageSize(requested), |all|);
      Ok(Page(all[start..end], if end < |all| then Some(Printed(end)) else None))
  }

  lemma SortedById(stored: seq<PushConfig>)
    ensures InOrder(Sorted(stored, IdLe), IdLe)
    ensures multiset(Sorted(stored, IdLe)) == multiset(stored) && |Sorted(stored, IdLe)| == |stored|
  {
    IdLeIsPreorder();
    SortedIs(stored, IdLe);
    assert |multiset(Sorted(stored, IdLe))| == |multiset(stored)|;
  }

  /** `list_push_configs` on what the store has for the task: a page of the
      configurations by id. */
  method ListPushConfigs(stored: seq<PushConfig>, requested: Option<int>, token: Option<string>)
    returns (page: Result<Page, A2AError>)
    ensures page == PageOf(Sorted(stored, IdLe), requested, token)
  {
    var configs := Sorted(stored, IdLe);
    var pageSize := ResolvedPageSize(requested);
    var start := 0;
    if token.Some? {
      var parsed := ParsedU64(token.value);
      if parsed.None? { return Err(Error(INVALID_PARAMS)); }
      start := parsed.value;
    }
    start := if start < |configs| then start else |configs|;
    var end := if start + pageSize < |configs| then start + pageSize else |configs|;
    var next := if end < |configs| then Some(Printed(end)) else None;
    return Ok(Page(configs[start..end], next));
  }

  // ---------------------------------------------------------------------
  // Following the tokens
  // ---------------------------------------------------------------------

  /** A list of configurations fits in memory. */
  ghost predicate Fits(all: seq<PushConfig>) {
    |all| < 0x1_0000_0000_0000_0000
  }

  /** How far into the list a token reaches. */
  function Reach(token: Option<string>, total: nat): (n: nat)
    ensures n <= total
  {
    StartOf(token, total).UnwrapOr(total)
  }

  lemma PrintedStart(end: nat, total: nat)
    requires end <= total < 0x1_0000_0000_0000_0000
    ensures StartOf(Some(Printed(end)), total) == Some(end)
  {
    PrintedParses(end);
  }

  lemma TokensAdvance(all: seq<PushConfig>, requested: Option<int>, token: Option<string>)
    requires Fits(all) && PageOf(all, requested, token).Ok?
    ensures var page := PageOf(all, requested, token).value;
            page.next.Some? ==>
              && StartOf(page.next, |all|) == Some(Reach(token, |all|) + |page.configs|)
              && |page.configs| == ResolvedPageSize(requested)
              && Reach(token, |all|) < Reach(page.next, |all|) < |all|
  {
    var end := Min(Reach(token, |all|) + ResolvedPageSize(requested), |all|);
    PrintedStart(end, |all|);
  }

  /** The pages a client gets that follows the tokens from this one on, asking
      for any size each time. */
  function Walk(all: seq<PushConfig>, token: Option<string>, sizes: nat -> Option<int>, request: nat): seq<seq<PushConfig>>
    requires Fits(all)
    decreases |all| - Reach(token, |all|)
  {
    match PageOf(all, sizes(request), token)
    case Err(_) => []
    case Ok(page) =>
      TokensAdvance(all, sizes(request), token);
      [page.configs] + if page.next.None? then [] else Walk(all, page.next, sizes, request + 1)
  }

  function Flattened(pages: seq<seq<PushConfig>>): seq<PushConfig> {
    if pages == [] then [] else pages[0] + Flattened(pages[1..])
  }

  ghost predicate PagesFit(pages: seq<seq<PushConfig>>) {
    forall k :: 0 <= k < |pages| ==> 1 <= |pages[k]| <= MAX_PAGE_SIZE
  }

  /** The pages cover the list from `start` on, with an entry at least in each. */
  ghost predicate Cover(all: seq<PushConfig>, start: nat, pages: seq<seq<PushConfig>>) {
    && start <= |all|
    && Flattened(pages) == all[start..]
    && |pages| <= |all| - start
    && PagesFit(pages)
  }

  lemma PageBefore(all: seq<PushConfig>, start: nat, end: nat, later: seq<seq<PushConfig>>)
    requires start < end <= |all| && end - start <= MAX_PAGE_SIZE && Cover(all, end, later)
    ensures Cover(all, start, [all[start..end]] + later)
  {
    var pages := [all[start..end]] + later;
    assert pages[1..] == later;
    assert all[start..] == all[start..end] + all[end..];
  }

  /** One request: a page of what is left, then the walk from its token. */
  lemma WalkStep(all: seq<PushConfig>, token: Option<string>, sizes: nat -> Option<int>, request: nat)
    returns (end: nat, next: Option<string>)
    requires Fits(all) && StartOf(token, |all|).Some? && Reach(token, |all|) < |all|
    ensures Reach(token, |all|) < end <= |all| && end - Reach(token, |all|) <= MAX_PAGE_SIZE
    ensures Walk(all, token, sizes, request)
         == [all[Reach(token, |all|)..end]] + if end == |all| then [] else Walk(all, next, sizes, request + 1)
    ensures end < |all| ==> StartOf(next, |all|) == Some(end) && Reach(next, |all|) == end
  {
    end, next := PageIs(all, sizes(request), token);
    WalkUnfolds(all, token, sizes, request, Page(all[Reach(token, |all|)..end], next));
  }

  lemma PageIs(all: seq<PushConfig>, requested: Option<int>, token: Option<string>)
    returns (end: nat, next: Option<string>)
    requires Fits(all) && StartOf(token, |all|).Some? && Reach(token, |all|) < |all|
    ensures Reach(token, |all|) < end <= |all| && end - Reach(token, |all|) <= MAX_PAGE_SIZE
    ensures PageOf(all, requested, token) == Ok(Page(all[Reach(token, |all|)..end], next))
    ensures next.None? <==> end == |all|
    ensures end < |all| ==> StartOf(next, |all|) == Some(end) && Reach(next, |all|) == end
  {
    var start := Reach(token, |all|);
    end := Min(start + ResolvedPageSize(requested), |all|);
    next := if end < |all| then Some(Printed(end)) else None;
    PrintedStart(end, |all|);
  }

  lemma WalkUnfolds(all: seq<PushConfig>, token: Option<string>, sizes: nat -> Option<int>, request: nat, page: Page)
    requires Fits(all) && PageOf(all, sizes(request), token) == Ok(page)
    ensures Walk(all, token, sizes, request)
         == [page.configs] + if page.next.None? then [] else Walk(all, page.next, sizes, request + 1)
  {
  }

  /** Following the tokens visits the rest of the list exactly once, in pages of
      one to `MAX_PAGE_SIZE` entries, at most one request per entry. */
  lemma {:induction false} WalkCoversTheRest(
      all: seq<PushConfig>, token: Option<string>, sizes: nat -> Option<int>, request: nat)
    requires Fits(all) && StartOf(token, |all|).Some? && Reach(token, |all|) < |all|
    ensures Cover(all, Reach(token, |all|), Walk(all, token, sizes, request))
    decreases |all| - Reach(token, |all|)
  {
    var start := Reach(token, |all|);
    var end, next := WalkStep(all, token, sizes, request);
    if end == |all| {
      assert Cover(all, end, []);
      PageBefore(all, start, end, []);
    } else {
      WalkCoversTheRest(all, next, sizes, request + 1);
      PageBefore(all, start, end, Walk(all, next, sizes, request + 1));
    }
  }

  /** From no token on, whatever sizes are asked for, an unchanged store list is
      visited exactly once, by id. */
  lemma PagingIsComplete(stored: seq<PushConfig>, sizes: nat -> Option<int>)
    requires Fits(stored)
    ensures var all := Sorted(stored, IdLe);
            && Fits(all) && multiset(all) == multiset(stored) && InOrder(all, IdLe)
            && var pages := Walk(all, None, sizes, 0);
               && Flattened(pages) == all
               && 1 <= |pages| <= (if stored == [] then 1 else |stored|)
               && (stored != [] ==> PagesFit(pages))
  {
    SortedById(stored);
    var all := Sorted(stored, IdLe);
    if stored == [] {
      var pages := Walk(all, None, sizes, 0);
      assert pages == [[]] && pages[1..] == [];
    } else {
      WalkCoversTheRest(all, None, sizes, 0);
    }
  }

  // ---------------------------------------------------------------------
  // The order, and tokens no page gave
  // ---------------------------------------------------------------------

  /** They differ first at k, where a has the lesser character. */
  predicate LessAt(a: string, b: string, k: nat) {
    k < |a| && k < |b| && a[..k] == b[..k] && a[k] < b[k]
  }

  /** A string comes before another if and only if it begins it, or has the lesser
      character where they first differ. */
  lemma {:induction false} StringLeIs(a: string, b: string)
    ensures StringLe(a, b) <==> a <= b || exists k: nat :: LessAt(a, b, k)
  {
    if a != "" && b != "" {
      StringLeIs(a[1..], b[1..]);
      assert a == [a[0]] + a[1..] && b == [b[0]] + b[1..];
      if a[0] < b[0] {
        assert LessAt(a, b, 0);
      } else if a[0] == b[0] {
        forall k: nat | LessAt(a[1..], b[1..], k) ensures LessAt(a, b, k + 1) {
          assert a[..k + 1] == [a[0]] + a[1..][..k] && b[..k + 1] == [b[0]] + b[1..][..k];
        }
        forall k: nat | LessAt(a, b, k) ensures k > 0 && LessAt(a[1..], b[1..], k - 1) {
          assert a[1..][..k - 1] == a[..k][1..] && b[1..][..k - 1] == b[..k][1..];
        }
      } else {
        forall k: nat ensures !LessAt(a, b, k) {
          if 0 < k < |a| && k < |b| { assert a[..k][0] == a[0] && b[..k][0] == b[0]; }
        }
      }
    }
  }

  /** A page is refused exactly when its token is no numeral of a 64-bit number; a
      number past the end gets an empty last page. */
  lemma PageOfAnyToken(all: seq<PushConfig>, requested: Option<int>, token: Option<string>)
    ensures PageOf(all, requested, token).Err?
            <==> token.Some? && forall n, sign, zeros ::
                   n < 0x1_0000_0000_0000_0000 ==> !IsNumeralOf(token.value, sign, zeros, n)
    ensures PageOf(all, requested, token).Err? ==> PageOf(all, requested, token) == Err(Error(INVALID_PARAMS))
    ensures token.None? ==> StartOf(token, |all|) == Some(0)
    ensures forall n, sign, zeros ::
              token.Some? && n < 0x1_0000_0000_0000_0000 && n >= |all| && IsNumeralOf(token.value, sign, zeros, n) ==>
                PageOf(all, requested, token) == Ok(Page([], None))
  {
    if token.Some? {
      var parsed := ParsedU64(token.value);
      if parsed.Some? { ParsesExactly(token.value, parsed.value); }
      forall n, sign, zeros | n < 0x1_0000_0000_0000_0000 && IsNumeralOf(token.value, sign, zeros, n)
        ensures parsed == Some(n)
      {
        ParsesExactly(token.value, n);
      }
      assert all[|all|..|all|] == [];
    }
  }

  /** The order of the pages: configurations without an id come first, the others
      by id. */
  lemma PagesAreById(stored: seq<PushConfig>, i: nat, j: nat)
    requires i < j < |Sorted(stored, IdLe)|
    ensures var a, b := Sorted(stored, IdLe)[i].id, Sorted(stored, IdLe)[j].id;
            && (b.None? ==> a.None?)
            && (a.Some? && b.Some? ==> a.value <= b.value || exists k: nat :: LessAt(a.value, b.value, k))
  {
    SortedById(stored);
    var a, b := Sorted(stored, IdLe)[i], Sorted(stored, IdLe)[j];
    assert IdLe(a, b);
    if a.id.Some? { StringLeIs(a.id.value, b.id.value); }
  }
}
