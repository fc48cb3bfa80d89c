/** The list and count endpoints: both evaluate the same composed specification over the
    store, the list paged and the count unpaged. */
module ShipQueries {
  import opened ShipModel
  import opened ShipFilters

  /** The repository: ships by identifier. */
  type Store = map<int, Ship>

  /** The unpaged result of a query: the stored ships its specification matches. */
  function Listed(store: Store, q: Query): (r: Store)
    ensures forall id :: id in r <==> id in store && Selected(store[id], q)
    ensures forall id :: id in r ==> r[id] == store[id]
  {
    forall id | id in store {
      MatchesIff(store[id], q);
    }
    map id | id in store && Matches(store[id], q) :: store[id]
  }

  /** Identifiers among `ids` whose ship satisfies `p`. */
  function IdsWhere(store: Store, p: Ship -> bool, ids: set<int>): (r: set<int>)
    requires ids <= store.Keys
  {
    set id | id in ids && p(store[id])
  }

  /** Adding one identifier to the scanned set adds it to the hits exactly when its ship satisfies `p`. */
  lemma IdsWhereStep(store: Store, p: Ship -> bool, done: set<int>, id: int)
    requires done <= store.Keys && id in store && id !in done
    ensures p(store[id]) ==> |IdsWhere(store, p, done + {id})| == |IdsWhere(store, p, done)| + 1
    ensures !p(store[id]) ==> |IdsWhere(store, p, done + {id})| == |IdsWhere(store, p, done)|
  {
    if p(store[id]) {
      assert IdsWhere(store, p, done + {id}) == IdsWhere(store, p, done) + {id};
    } else {
      assert IdsWhere(store, p, done + {id}) == IdsWhere(store, p, done);
    }
  }

  /** The number of stored ships that satisfy `p`, computed by a scan of the store one
      identifier at a time. */
  method CountWhere(store: Store, p: Ship -> bool) returns (n: nat)
    ensures n == |IdsWhere(store, p, store.Keys)|
  {
    n := 0;
    var todo := store.Keys;
    ghost var done: set<int> := {};
    while todo != {}
      invariant todo + done == store.Keys && todo !! done
      invariant n == |IdsWhere(store, p, done)|
      decreases todo
    {
      if forall k :: k !in todo {
        // Unreachable: todo is non-empty. This branch is here only so that the
        // verifier can prove the pick below has a witness.
        assert false;
      }
      var id :| id in todo;
      IdsWhereStep(store, p, done, id);
      if p(store[id]) {
        n := n + 1;
      }
      todo := todo - {id};
      done := done + {id};
    }
  }

  /** The count endpoint: the number of stored ships the query's specification matches,
      the size of the unpaged list. */
  method CountShips(store: Store, q: Query) returns (n: nat)
    ensures n == |Listed(store, q)|
    ensures n == |set id | id in store && Selected(store[id], q)|
  {
    n := CountWhere(store, s => Matches(s, q));
    forall id | id in store {
      MatchesIff(store[id], q);
    }
    assert IdsWhere(store, s => Matches(s, q), store.Keys) == Listed(store, q).Keys;
    assert IdsWhere(store, s => Matches(s, q), store.Keys) == set id | id in store && Selected(store[id], q);
  }

  /** One page of an already ordered result: `pageSize` rows starting at row
      `pageNumber * pageSize`, fewer on the last page, none past the end. */
  function Page(rows: seq<Ship>, pageNumber: nat, pageSize: nat): (p: seq<Ship>)
    requires pageSize >= 1
    ensures |p| <= pageSize
    ensures pageNumber * pageSize + |p| <= |rows| || |p| == 0
    ensures forall k :: 0 <= k < |p| ==> p[k] == rows[pageNumber * pageSize + k]
    ensures pageNumber * pageSize + pageSize <= |rows| ==> |p| == pageSize
    ensures pageNumber * pageSize < |rows| ==>
      |p| == if |rows| - pageNumber * pageSize < pageSize then |rows| - pageNumber * pageSize else pageSize
    ensures pageNumber * pageSize >= |rows| ==> |p| == 0
  {
    var start := pageNumber * pageSize;
    if start >= |rows| then []
    else if start + pageSize <= |rows| then rows[start..start + pageSize]
    else rows[start..]
  }

  /** Every row lands on exactly one page, at its offset within that page. */
  lemma RowOnItsPage(rows: seq<Ship>, pageSize: nat, k: nat)
    requires pageSize >= 1 && k < |rows|
    ensures k % pageSize < |Page(rows, k / pageSize, pageSize)|
    ensures Page(rows, k / pageSize, pageSize)[k % pageSize] == rows[k]
  {
    var pn := k / pageSize;
    assert pn * pageSize + k % pageSize == k;
    assert pn * pageSize <= k;
  }

  /** A page of a listing that holds only matching ships holds only matching ships. */
  lemma PageKeepsFilter(rows: seq<Ship>, q: Query, pageNumber: nat, pageSize: nat)
    requires pageSize >= 1
    requires forall k :: 0 <= k < |rows| ==> Selected(rows[k], q)
    ensures forall k :: 0 <= k < |Page(rows, pageNumber, pageSize)| ==>
      Selected(Page(rows, pageNumber, pageSize)[k], q)
  {
  }

  /** An inverted date range (after later than before) lists nothing. */
  lemma InvertedDateRangeListsNothing(store: Store, q: Query)
    requires q.after.Some? && q.before.Some? && q.after.value > q.before.value
    ensures Listed(store, q) == map[]
  {
  }

  /** A minimum speed above the maximum lists nothing, both ends being inclusive. */
  lemma InvertedSpeedRangeListsNothing(store: Store, q: Query)
    requires q.minSpeed.Some? && q.maxSpeed.Some? && q.minSpeed.value > q.maxSpeed.value
    ensures Listed(store, q) == map[]
  {
  }

  /** A minimum crew size above the maximum lists nothing. */
  lemma InvertedCrewSizeRangeListsNothing(store: Store, q: Query)
    requires q.minCrewSize.Some? && q.maxCrewSize.Some? && q.minCrewSize.value > q.maxCrewSize.value
    ensures Listed(store, q) == map[]
  {
  }

  /** A minimum rating above the maximum lists nothing. */
  lemma InvertedRatingRangeListsNothing(store: Store, q: Query)
    requires q.minRating.Some? && q.maxRating.Some? && q.minRating.value > q.maxRating.value
    ensures Listed(store, q) == map[]
  {
  }

  /** Without parameters, the list is the whole store. */
  lemma NoQueryListsAll(store: Store)
    ensures Listed(store, NoQuery) == store
  {
  }
}
