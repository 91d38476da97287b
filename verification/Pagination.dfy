/** The pages a client gets of a search's results, each telling where the next begins. */
module Pagination {
  import opened SysmlModel
  import opened Ordering

  const PageSize: nat := 200

  datatype Page = Page(ids: seq<Id>, nextCursor: Option<Id>)

  function Position(ids: seq<Id>, id: Id): (i: Option<nat>)
    ensures i.Some? ==> i.value < |ids| && ids[i.value] == id && id !in ids[..i.value]
    ensures i.None? ==> id !in ids
  {
    if ids == [] then None
    else if ids[0] == id then Some(0)
    else
      var i := Position(ids[1..], id);
      if i.Some? then Some(i.value + 1) else None
  }

  /** Just past the cursor; at the start if there is none, or if it is not among the ids. */
  function StartOf(ids: seq<Id>, cursor: Option<Id>): (start: nat)
    ensures start <= |ids|
  {
    if cursor.None? then 0
    else
      var i := Position(ids, cursor.value);
      if i.Some? then i.value + 1 else 0
  }

  function PageFrom(ids: seq<Id>, start: nat): Page
    requires start <= |ids|
  {
    if |ids| - start > PageSize then Page(ids[start..start + PageSize], Some(ids[start + PageSize - 1]))
    else Page(ids[start..], None)
  }

  /** One request: the found ids, listed in whatever order the table of them iterates, and a cursor. */
  function PageOf(found: seq<Id>, cursor: Option<Id>): Page {
    var ids := SortIds(found);
    PageFrom(ids, StartOf(ids, cursor))
  }

  ghost predicate AllDifferent(ids: seq<Id>) {
    forall i, j :: 0 <= i < j < |ids| ==> ids[i] != ids[j]
  }

  lemma PositionIs(ids: seq<Id>, i: nat)
    requires AllDifferent(ids) && i < |ids|
    ensures Position(ids, ids[i]) == Some(i)
  {
  }

  lemma {:induction false} SortKeepsDifferent(found: seq<Id>)
    requires AllDifferent(found)
    ensures AllDifferent(SortIds(found))
  {
    var ids := SortIds(found);
    forall i, j | 0 <= i < j < |ids|
      ensures ids[i] != ids[j]
    {
      if ids[i] == ids[j] {
        assert ids == (ids[..i] + [ids[i]]) + (ids[i + 1..j] + [ids[j]] + ids[j + 1..]);
        assert multiset(ids)[ids[i]] >= 2;
        OnceEach(found, ids[i]);
      }
    }
  }

  lemma {:induction false} OnceEach(ids: seq<Id>, x: Id)
    requires AllDifferent(ids)
    ensures multiset(ids)[x] <= 1
  {
    if ids != [] {
      var init := ids[..|ids| - 1];
      OnceEach(init, x);
      assert ids == init + [ids[|ids| - 1]];
      assert x == ids[|ids| - 1] ==> x !in init;
    }
  }

  lemma PageFollowsOn(ids: seq<Id>, start: nat)
    requires AllDifferent(ids) && start <= |ids|
    ensures var page := PageFrom(ids, start);
            if page.nextCursor.None? then ids[..start] + page.ids == ids
            else
              start < StartOf(ids, page.nextCursor) && ids[..start] + page.ids == ids[..StartOf(ids, page.nextCursor)]
  {
    hide AllDifferent, Position;
    if |ids| - start > PageSize {
      PositionIs(ids, start + PageSize - 1);
    }
  }

  /** A client that asks for page after page until no cursor comes back has every id once, in order, even if
      the service lists what it found in another order every time. */
  method FollowPages(listings: nat -> seq<Id>) returns (all: seq<Id>)
    requires AllDifferent(listings(0)) && forall n :: multiset(listings(n)) == multiset(listings(0))
    ensures all == SortIds(listings(0))
  {
    hide SortIds, AllDifferent, Position, PageFrom;
    ghost var ids := SortIds(listings(0));
    SortKeepsDifferent(listings(0));
    all := [];
    var cursor: Option<Id> := None;
    var n := 0;
    while true
      invariant all == ids[..StartOf(ids, cursor)]
      decreases |ids| - StartOf(ids, cursor)
    {
      SortIdsOrderFree(listings(n), listings(0));
      var page := PageOf(listings(n), cursor);
      PageFollowsOn(ids, StartOf(ids, cursor));
      all := all + page.ids;
      if page.nextCursor.None? {
        return;
      }
      cursor := page.nextCursor;
      n := n + 1;
    }
  }

  /** A cursor that is no longer among the ids starts over. */
  lemma StaleCursorStartsOver(found: seq<Id>, cursor: Id)
    requires cursor !in found
    ensures PageOf(found, Some(cursor)) == PageOf(found, None)
  {
    assert forall x :: x in found <==> x in multiset(found);
    assert forall x :: x in SortIds(found) <==> x in multiset(SortIds(found));
  }
}
