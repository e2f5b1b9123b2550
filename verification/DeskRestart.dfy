/** Restart: the stored rows give back the book (less the entry fees, which have no column)
    and the breaker, and the next fill nets the same lots exactly when no two of them tie. */
module DeskRestart {
  import opened Lists
  import opened TradingDesk
  import opened DeskInvariants

  function ZeroFee(p: Position): Position { p.(entryFee := 0.0) }

  function ZeroFees(book: seq<Position>): (r: seq<Position>)
    ensures |r| == |book| && forall i :: 0 <= i < |book| ==> r[i] == ZeroFee(book[i])
  {
    if book == [] then [] else [ZeroFee(book[0])] + ZeroFees(book[1..])
  }

  // ------------------------------------------------------------ loading rows

  ghost predicate Agrees(book: seq<Position>, table: map<string, Row>) {
    forall i :: 0 <= i < |book| ==> book[i].id in table && table[book[i].id] == ToRow(book[i])
  }

  ghost predicate ListsKeys(order: seq<string>, ids: set<string>) {
    && (forall id :: id in order <==> id in ids)
    && (forall i, j :: 0 <= i < j < |order| ==> order[i] != order[j])
  }

  lemma {:induction false} ListsRest(order: seq<string>, ids: set<string>)
    requires order != [] && ListsKeys(order, ids)
    ensures ListsKeys(order[1..], ids - {order[0]})
  {
  }

  lemma {:induction false} ZeroFeesRemoveAt(book: seq<Position>, i: nat)
    requires i < |book|
    ensures multiset(ZeroFees(book)) == multiset(ZeroFees(book[..i] + book[i + 1..])) + multiset{ZeroFee(book[i])}
  {
    var zero := ZeroFees(book);
    assert ZeroFees(book[..i] + book[i + 1..]) == zero[..i] + zero[i + 1..];
    MultisetRemoveAt(zero, i);
  }

  lemma {:induction false} AgreesRest(book: seq<Position>, table: map<string, Row>, i: nat)
    requires Agrees(book, table) && i < |book|
    ensures Agrees(book[..i] + book[i + 1..], table)
  {
  }

  lemma {:induction false} IdsNonEmpty(book: seq<Position>)
    requires book != []
    ensures Ids(book) != {}
  {
    assert book[0].id in Ids(book);
  }

  lemma {:induction false} LoadedPermutes(book: seq<Position>, table: map<string, Row>, order: seq<string>)
    requires Keyed(book) && Agrees(book, table) && ListsKeys(order, Ids(book))
    requires forall id <- order :: id in table
    ensures multiset(Loaded(table, order)) == multiset(ZeroFees(book))
    decreases order
  {
    if order == [] {
      if book != [] {
        IdsNonEmpty(book);
      }
    } else {
      assert order[0] in Ids(book);
      var i :| 0 <= i < |book| && book[i].id == order[0];
      RemoveIds(book, i);
      RemoveKeyed(book, i);
      AgreesRest(book, table, i);
      ListsRest(order, Ids(book));
      LoadedPermutes(book[..i] + book[i + 1..], table, order[1..]);
      ZeroFeesRemoveAt(book, i);
      assert FromRow(order[0], table[order[0]]) == ZeroFee(book[i]);
    }
  }

  lemma {:induction false} LoadedAt(table: map<string, Row>, order: seq<string>)
    requires forall id <- order :: id in table
    ensures |Loaded(table, order)| == |order|
    ensures forall k :: 0 <= k < |order| ==> Loaded(table, order)[k] == FromRow(order[k], table[order[k]])
  {
    if order != [] {
      LoadedAt(table, order[1..]);
    }
  }

  lemma {:induction false} RowOrderLists(d: Desk, order: seq<string>)
    requires Healthy(d) && IsRowOrder(d.table, order)
    ensures ListsKeys(order, Ids(d.book))
  {
  }

  lemma {:induction false} LoadedMirrors(table: map<string, Row>, order: seq<string>)
    requires IsRowOrder(table, order)
    ensures Keyed(Loaded(table, order)) && Mirrors(Loaded(table, order), table)
  {
    LoadedAt(table, order);
    var book := Loaded(table, order);
    forall id | id in table ensures id in Ids(book) {
      var k :| 0 <= k < |order| && order[k] == id;
      assert book[k].id == id;
    }
  }

  lemma {:induction false} PermutedBook(book: seq<Position>, b2: seq<Position>)
    requires multiset(b2) == multiset(ZeroFees(book))
    ensures |b2| == |book|
    ensures Sized(book) ==> Sized(b2)
    ensures LongOnly(book) ==> LongOnly(b2)
    ensures SumBy(b2, Notional) == SumBy(book, Notional)
  {
    assert |multiset(b2)| == |b2| && |multiset(ZeroFees(book))| == |book|;
    forall i | 0 <= i < |b2| ensures exists j :: 0 <= j < |book| && b2[i] == ZeroFee(book[j]) {
      assert b2[i] in multiset(ZeroFees(book));
      var j :| 0 <= j < |book| && ZeroFees(book)[j] == b2[i];
      assert b2[i] == ZeroFee(book[j]);
    }
    SumByPermute(b2, ZeroFees(book), Notional);
    ZeroFeesNotional(book);
  }

  lemma {:induction false} ZeroFeesNotional(book: seq<Position>)
    ensures SumBy(ZeroFees(book), Notional) == SumBy(book, Notional)
  {
    if book != [] {
      ZeroFeesNotional(book[1..]);
      assert ZeroFees(book)[1..] == ZeroFees(book[1..]);
    }
  }

  lemma {:induction false} RestartBook(d: Desk, order: seq<string>)
    requires Healthy(d) && IsRowOrder(d.table, order)
    ensures var b2 := Loaded(d.table, order);
      && multiset(b2) == multiset(ZeroFees(d.book)) && |b2| == |d.book|
      && Keyed(b2) && Sized(b2) && Mirrors(b2, d.table) && (LongOnly(d.book) ==> LongOnly(b2))
      && SumBy(b2, Notional) == SumBy(d.book, Notional)
  {
    RowOrderLists(d, order);
    LoadedPermutes(d.book, d.table, order);
    PermutedBook(d.book, Loaded(d.table, order));
    LoadedMirrors(d.table, order);
  }

  /** A restart at a cycle boundary, whatever order the rows come back in: same lots (entry
      fees read back as 0), same table, same breaker, same ledger, same available capital. */
  lemma {:induction false} RestartRestores(d: Desk, order: seq<string>, initialCapital: real)
    requires Healthy(d) && IsRowOrder(d.table, order)
    ensures var d2 := Restart(d, order);
      && multiset(d2.book) == multiset(ZeroFees(d.book))
      && d2.breaker == d.breaker && d2.table == d.table && d2.events == d.events
      && AvailableCapital(d2, initialCapital) == AvailableCapital(d, initialCapital)
      && Healthy(d2) && (Long(d) ==> Long(d2)) && Basis(d2) == Basis(d) && |d2.book| == |d.book|
  {
    RestartBook(d, order);
    assert Restart(d, order) == d.(book := Loaded(d.table, order));
    BasisMoves(d, Restart(d, order));
  }

  // ------------------------------------------------- netting after a restart

  lemma {:induction false} LotsZeroFees(book: seq<Position>, symbol: string, side: Side)
    ensures Lots(ZeroFees(book), symbol, side) == ZeroFees(Lots(book, symbol, side))
  {
    if book != [] {
      LotsZeroFees(book[1..], symbol, side);
      assert ZeroFees(book)[1..] == ZeroFees(book[1..]);
    }
  }

  lemma {:induction false} ZeroFeesCons(p: Position, xs: seq<Position>)
    ensures ZeroFees([p] + xs) == [ZeroFee(p)] + ZeroFees(xs)
  {
  }

  lemma {:induction false} ZeroFeesTail(xs: seq<Position>)
    requires xs != []
    ensures ZeroFees(xs)[1..] == ZeroFees(xs[1..])
  {
  }

  lemma {:induction false} InsertZeroFees(p: Position, xs: seq<Position>)
    ensures Insert(ZeroFee(p), ZeroFees(xs), OpenedAt) == ZeroFees(Insert(p, xs, OpenedAt))
  {
    if xs != [] && OpenedAt(p) > OpenedAt(xs[0]) {
      InsertZeroFees(p, xs[1..]);
      ZeroFeesCons(xs[0], Insert(p, xs[1..], OpenedAt));
      ZeroFeesTail(xs);
    } else {
      ZeroFeesCons(p, xs);
    }
  }

  lemma {:induction false} SortZeroFees(xs: seq<Position>)
    ensures StableSort(ZeroFees(xs), OpenedAt) == ZeroFees(StableSort(xs, OpenedAt))
  {
    if xs != [] {
      SortZeroFees(xs[1..]);
      assert ZeroFees(xs)[1..] == ZeroFees(xs[1..]);
      InsertZeroFees(xs[0], StableSort(xs[1..], OpenedAt));
    }
  }

  lemma {:induction false} PlanZeroFees(lots: seq<Position>, remaining: real)
    ensures var (plan, left) := Plan(lots, remaining);
      var (plan2, left2) := Plan(ZeroFees(lots), remaining);
      && left2 == left && |plan2| == |plan|
      && forall k :: 0 <= k < |plan| ==> plan2[k] == plan[k].(lot := ZeroFee(plan[k].lot))
  {
    if lots != [] && remaining > EPS {
      PlanZeroFees(lots[1..], remaining - Min(remaining, lots[0].quantity));
      assert ZeroFees(lots)[1..] == ZeroFees(lots[1..]);
    }
  }

  lemma {:induction false} DistinctZeroFees(xs: seq<Position>)
    requires DistinctKeys(xs, OpenedAt)
    ensures DistinctKeys(ZeroFees(xs), OpenedAt)
  {
  }

  lemma {:induction false} CandidatesAfterRestart(d: Desk, order: seq<string>, fill: Fill)
    requires Healthy(d) && IsRowOrder(d.table, order)
    requires DistinctKeys(Lots(d.book, fill.symbol, Opposite(fill.side)), OpenedAt)
    ensures Candidates(Restart(d, order).book, fill) == ZeroFees(Candidates(d.book, fill))
  {
    var side := Opposite(fill.side);
    var lots := Lots(d.book, fill.symbol, side);
    RowOrderLists(d, order);
    LoadedPermutes(d.book, d.table, order);
    FilterPermute(ZeroFees(d.book), Loaded(d.table, order), IsLot(fill.symbol, side));
    LotsZeroFees(d.book, fill.symbol, side);
    DistinctZeroFees(lots);
    StableSortPermutation(ZeroFees(lots), Lots(Loaded(d.table, order), fill.symbol, side), OpenedAt);
    SortZeroFees(lots);
  }

  /** With distinct opening times the next fill meets the same lots in the same order, takes
      the same quantities from them and leaves the same residue, as if nothing had happened. */
  lemma {:induction false} RestartSameNetting(d: Desk, order: seq<string>, fill: Fill)
    requires Healthy(d) && IsRowOrder(d.table, order)
    requires DistinctKeys(Lots(d.book, fill.symbol, Opposite(fill.side)), OpenedAt)
    ensures var (plan, left) := Plan(Candidates(d.book, fill), fill.quantity);
      var (plan2, left2) := Plan(Candidates(Restart(d, order).book, fill), fill.quantity);
      && left2 == left && |plan2| == |plan|
      && forall k :: 0 <= k < |plan| ==> plan2[k] == plan[k].(lot := ZeroFee(plan[k].lot))
  {
    CandidatesAfterRestart(d, order, fill);
    PlanZeroFees(Candidates(d.book, fill), fill.quantity);
  }

  // ------------------------------------------------------------ the tie case

  function BookIds(book: seq<Position>): (r: seq<string>)
    ensures |r| == |book| && forall i :: 0 <= i < |book| ==> r[i] == book[i].id
  {
    if book == [] then [] else [book[0].id] + BookIds(book[1..])
  }

  lemma {:induction false} RowsInBookOrder(d: Desk)
    requires Healthy(d)
    ensures IsRowOrder(d.table, BookIds(d.book)) && Loaded(d.table, BookIds(d.book)) == ZeroFees(d.book)
  {
    BookIdsOrder(d.book, d.table);
    LoadedAt(d.table, BookIds(d.book));
  }

  lemma {:induction false} BookIdsOrder(book: seq<Position>, table: map<string, Row>)
    requires Keyed(book) && Mirrors(book, table)
    ensures IsRowOrder(table, BookIds(book))
  {
  }

  lemma {:induction false} RowOrderReversed(table: map<string, Row>, ids: seq<string>)
    requires IsRowOrder(table, ids)
    ensures IsRowOrder(table, Reverse(ids))
  {
    ReverseDistinct(ids);
    forall id | id in table ensures id in Reverse(ids) {
      var i :| 0 <= i < |ids| && ids[i] == id;
      assert Reverse(ids)[|ids| - 1 - i] == id;
    }
  }

  lemma {:induction false} LoadedSnoc(table: map<string, Row>, ids: seq<string>, id: string)
    requires id in table
    ensures Loaded(table, ids + [id]) == Loaded(table, ids) + [FromRow(id, table[id])]
  {
    if ids == [] {
      assert ids + [id] == [id] && [id][1..] == [];
    } else {
      LoadedSnoc(table, ids[1..], id);
      assert (ids + [id])[1..] == ids[1..] + [id];
    }
  }

  lemma {:induction false} RowsReversed(table: map<string, Row>, ids: seq<string>)
    requires forall id <- ids :: id in table
    ensures Loaded(table, Reverse(ids)) == Reverse(Loaded(table, ids))
  {
    if ids != [] {
      RowsReversed(table, ids[1..]);
      LoadedSnoc(table, Reverse(ids[1..]), ids[0]);
    }
  }

  /** Every row order gives the same netting queue exactly when no two of the lots tie on
      their opening time: on a tie the queue after a restart depends on the database. */
  lemma {:induction false} RestartOrderIrrelevantIff(d: Desk, fill: Fill)
    requires Healthy(d)
    ensures (forall a, b :: IsRowOrder(d.table, a) && IsRowOrder(d.table, b) ==>
               Candidates(Restart(d, a).book, fill) == Candidates(Restart(d, b).book, fill))
       <==> DistinctKeys(Lots(d.book, fill.symbol, Opposite(fill.side)), OpenedAt)
  {
    if DistinctKeys(Lots(d.book, fill.symbol, Opposite(fill.side)), OpenedAt) {
      forall a, b | IsRowOrder(d.table, a) && IsRowOrder(d.table, b)
        ensures Candidates(Restart(d, a).book, fill) == Candidates(Restart(d, b).book, fill)
      {
        CandidatesAfterRestart(d, a, fill);
        CandidatesAfterRestart(d, b, fill);
      }
    } else {
      RowsInBookOrder(d);
      RowOrderReversed(d.table, BookIds(d.book));
      RowsReversed(d.table, BookIds(d.book));
      TieBreaksByRows(d.book, fill);
      var a, b := BookIds(d.book), Reverse(BookIds(d.book));
      assert Candidates(Restart(d, a).book, fill) != Candidates(Restart(d, b).book, fill);
    }
  }

  lemma {:induction false} TieBreaksByRows(book: seq<Position>, fill: Fill)
    requires Keyed(book) && !DistinctKeys(Lots(book, fill.symbol, Opposite(fill.side)), OpenedAt)
    ensures Candidates(ZeroFees(book), fill) != Candidates(Reverse(ZeroFees(book)), fill)
  {
    var wants := IsLot(fill.symbol, Opposite(fill.side));
    var zero := ZeroFees(book);
    LotsZeroFees(book, fill.symbol, Opposite(fill.side));
    var raw, lots := Filter(book, wants), Filter(zero, wants);
    var i, j :| 0 <= i < j < |raw| && OpenedAt(raw[i]) == OpenedAt(raw[j]);
    FilterReverse(zero, wants);
    FilterDrawn(zero, wants);
    assert Distinct(lots);
    TieOrderMatters(lots, OpenedAt, i, j);
  }
}
