/**
 getTransactionsForAddress, page by page (src/rpc/api_jsonrpc.rs,
 `RpcRequestTransactionsForAddress::process`, with the slot range chosen by
 src/storage/read.rs and the scan of module AddressScan below it).
 */
module Paging {
  import opened Common
  import opened Codec
  import opened AddressScan

  // ----- what lies after a cursor -----

  /** The entries strictly after a position, or all of them. */
  ghost function Rest(desc: bool, items: seq<Item>, cursor: Option<Position>): seq<Item> {
    if cursor.None? || items == [] then items
    else (if Later(desc, cursor.value, At(items[0])) then [items[0]] else []) + Rest(desc, items[1..], cursor)
  }

  ghost predicate Has(items: seq<Item>, p: Position) {
    exists i :: 0 <= i < |items| && At(items[i]) == p
  }

  lemma {:induction false} RestAppend(desc: bool, a: seq<Item>, b: seq<Item>, cursor: Option<Position>)
    ensures Rest(desc, a + b, cursor) == Rest(desc, a, cursor) + Rest(desc, b, cursor)
  {
    if a == [] {
      assert a + b == b;
    } else if cursor.Some? {
      assert (a + b)[1..] == a[1..] + b;
      RestAppend(desc, a[1..], b, cursor);
    }
  }

  lemma {:induction false} RestAll(desc: bool, items: seq<Item>, p: Position)
    requires forall i :: 0 <= i < |items| ==> Later(desc, p, At(items[i]))
    ensures Rest(desc, items, Some(p)) == items
  {
    if items != [] {
      RestAll(desc, items[1..], p);
    }
  }

  lemma {:induction false} RestNone(desc: bool, items: seq<Item>, p: Position)
    requires forall i :: 0 <= i < |items| ==> !Later(desc, p, At(items[i]))
    ensures Rest(desc, items, Some(p)) == []
  {
    if items != [] {
      RestNone(desc, items[1..], p);
    }
  }

  /** A cursor on an entry resumes right behind that entry. */
  lemma RestBehind(desc: bool, items: seq<Item>, k: nat)
    requires Sorted(desc, items) && k < |items|
    ensures Rest(desc, items, Some(At(items[k]))) == items[k + 1..]
  {
    assert items == items[..k + 1] + items[k + 1..];
    RestAppend(desc, items[..k + 1], items[k + 1..], Some(At(items[k])));
    RestNone(desc, items[..k + 1], At(items[k]));
    RestAll(desc, items[k + 1..], At(items[k]));
  }

  /** What a cursor leaves of a sorted list is its end. */
  lemma {:induction false} RestIsSuffix(desc: bool, items: seq<Item>, cursor: Option<Position>)
    requires Sorted(desc, items)
    ensures var left := Rest(desc, items, cursor); |left| <= |items| && left == items[|items| - |left|..]
  {
    if cursor.Some? && items != [] {
      if Later(desc, cursor.value, At(items[0])) {
        RestAll(desc, items, cursor.value);
      } else {
        RestIsSuffix(desc, items[1..], cursor);
      }
    }
  }

  /** Resuming inside what is left of an earlier cursor. */
  lemma RestOfRest(desc: bool, items: seq<Item>, cursor: Option<Position>, k: nat)
    requires Sorted(desc, items) && k < |Rest(desc, items, cursor)|
    ensures var left := Rest(desc, items, cursor);
            Rest(desc, items, Some(At(left[k]))) == left[k + 1..] && Has(items, At(left[k]))
  {
    hide Rest, Sorted;
    RestIsSuffix(desc, items, cursor);
    var left := Rest(desc, items, cursor);
    var d := |items| - |left|;
    assert left[k] == items[d + k] && left[k + 1..] == items[d + k + 1..];
    RestBehind(desc, items, d + k);
  }

  // ----- the cursor of the scan -----

  /** Some entry in another slot would be dropped by the cursor's index. */
  ghost predicate Stray(desc: bool, items: seq<Item>, p: Position) {
    exists i :: 0 <= i < |items| && items[i].slot != p.slot && Skips(desc, p.index, items[i].status.index)
  }

  lemma {:induction false} SkipShrinks(desc: bool, cursor: Option<nat>, items: seq<Item>)
    ensures |Skip(desc, cursor, items)| <= |items|
    decreases |items|
  {
    if cursor.Some? && items != [] {
      SkipShrinks(desc, if items[0].status.index == cursor.value then None else cursor, items[1..]);
      SkipShrinks(desc, cursor, items[1..]);
    }
  }

  /**
   Exactly when the scan resumes where the cursor points: the cursor's own
   entry is still in its row, or no other slot has an entry on the skipped
   side. A token whose entry has gone (evicted, or not written yet) otherwise
   loses entries of other slots.
   */
  lemma {:induction false} SkipIsRestIff(desc: bool, items: seq<Item>, p: Position)
    requires Sorted(desc, items) && forall i :: 0 <= i < |items| ==> Onward(desc, p.slot, items[i].slot)
    ensures Skip(desc, Some(p.index), items) == Rest(desc, items, Some(p))
            <==> Has(items, p) || !Stray(desc, items, p)
  {
    if items != [] {
      var first, rest := items[0], items[1..];
      if At(first) == p {
        RestAll(desc, rest, p);
      } else {
        SkipIsRestIff(desc, rest, p);
        StrayStep(desc, items, p);
        if !Later(desc, p, At(first)) {
          assert first.slot == p.slot && Skips(desc, p.index, first.status.index);
        } else {
          NotBehind(desc, items, p);
          SkipShrinks(desc, Some(p.index), rest);
          SkipShrinks(desc, None, rest);
          if !Skips(desc, p.index, first.status.index) {
            HeadEqual(first, Skip(desc, Some(p.index), rest), Rest(desc, rest, Some(p)));
          }
        }
      }
    }
  }

  /** With the cursor's entry gone from slot 10, the entry of slot 8 is lost. */
  lemma SkipLosesAnEntry(status: Status)
    ensures var items := [Item(9, status.(index := 5)), Item(8, status.(index := 7))];
            && Sorted(true, items) && Rest(true, items, Some(Position(10, 6))) == items
            && Skip(true, Some(6), items) == [items[0]]
  {
    var items := [Item(9, status.(index := 5)), Item(8, status.(index := 7))];
    assert items[1..] == [items[1]] && [items[1]][1..] == [];
    assert Skip(true, Some(6), [items[1]]) == Skip(true, Some(6), []);
    RestAll(true, items, Position(10, 6));
  }

  lemma HeadEqual(first: Item, a: seq<Item>, b: seq<Item>)
    ensures [first] + a == [first] + b <==> a == b
  {
    if [first] + a == [first] + b {
      assert a == ([first] + a)[1..] == ([first] + b)[1..] == b;
    }
  }

  lemma NotBehind(desc: bool, items: seq<Item>, p: Position)
    requires items != [] && Sorted(desc, items) && Later(desc, p, At(items[0]))
    ensures !Has(items, p) && Rest(desc, items, Some(p)) == items && !Has(items[1..], p)
  {
    RestAll(desc, items, p);
  }

  lemma StrayStep(desc: bool, items: seq<Item>, p: Position)
    requires items != []
    ensures Stray(desc, items, p) <==>
            (items[0].slot != p.slot && Skips(desc, p.index, items[0].status.index)) || Stray(desc, items[1..], p)
  {
    if Stray(desc, items[1..], p) {
      var i :| 0 <= i < |items[1..]| && items[1..][i].slot != p.slot && Skips(desc, p.index, items[1..][i].status.index);
      assert items[i + 1] == items[1..][i];
    }
  }

  // ----- the range of a request -----

  datatype Query = Query(address: Hash, desc: bool, lower: Option<Slot>, upper: Option<Slot>,
                         commitment: Slot, firstAvailable: Slot)

  function Newest(q: Query): Slot {
    if q.upper.Some? && q.upper.value < q.commitment then q.upper.value else q.commitment
  }

  function Start(q: Query, cursor: Option<Position>): Slot {
    if cursor.Some? then cursor.value.slot
    else if q.desc then Newest(q)
    else if q.lower.Some? && q.lower.value > q.firstAvailable then q.lower.value else q.firstAvailable
  }

  function Stop(q: Query): Option<Slot> {
    if q.desc then q.lower else Some(Newest(q))
  }

  ghost function From(q: Query, rows: seq<Row>, from: Slot): seq<Item> {
    Select(InOrder(rows, q.desc), q.address, q.desc, from, Stop(q))
  }

  /** Everything a request ranges over, in its order. */
  ghost function Listing(q: Query, rows: seq<Row>): seq<Item> {
    From(q, rows, Start(q, None))
  }

  lemma {:induction false} SelectSlots(rows: seq<Row>, address: Hash, desc: bool, from: Slot, stop: Option<Slot>, item: Item)
    requires item in Select(rows, address, desc, from, stop)
    ensures exists i :: 0 <= i < |rows| && Chosen(rows[i], address, desc, from, stop) && item in Items(rows[i])
  {
    if Chosen(rows[0], address, desc, from, stop) && item in Items(rows[0]) {
    } else {
      SelectSlots(rows[1..], address, desc, from, stop, item);
      var i :| 0 <= i < |rows[1..]| && Chosen(rows[1..][i], address, desc, from, stop) && item in Items(rows[1..][i]);
      assert rows[i + 1] == rows[1..][i];
    }
  }

  lemma {:induction false} SelectSorted(rows: seq<Row>, address: Hash, desc: bool, from: Slot, stop: Option<Slot>)
    requires Ordered(desc, rows)
    ensures Sorted(desc, Select(rows, address, desc, from, stop))
  {
    if rows != [] {
      OrderedFrom(desc, rows, 1);
      SelectSorted(rows[1..], address, desc, from, stop);
      if Chosen(rows[0], address, desc, from, stop) {
        var own, more := Items(rows[0]), Select(rows[1..], address, desc, from, stop);
        forall i, j | 0 <= i < |own| && 0 <= j < |more| ensures Later(desc, At(own[i]), At(more[j])) {
          LaterRows(rows, address, desc, from, stop, more[j]);
        }
      }
    }
  }

  /** Rows of the address further on hold only later slots. */
  lemma LaterRows(rows: seq<Row>, address: Hash, desc: bool, from: Slot, stop: Option<Slot>, item: Item)
    requires rows != [] && Ordered(desc, rows) && rows[0].address == address
    requires item in Select(rows[1..], address, desc, from, stop)
    ensures if desc then item.slot < rows[0].slot else rows[0].slot < item.slot
  {
    hide KeyLess;
    SelectSlots(rows[1..], address, desc, from, stop, item);
    var i :| 0 <= i < |rows[1..]| && Chosen(rows[1..][i], address, desc, from, stop) && item in Items(rows[1..][i]);
    assert rows[i + 1] == rows[1..][i];
    assert if desc then RowLess(rows[i + 1], rows[0]) else RowLess(rows[0], rows[i + 1]);
    KeyLessStrict(address);
  }

  /** Starting at the cursor's slot instead of the range's start loses nothing behind the cursor. */
  lemma {:induction false} NarrowRest(rows: seq<Row>, address: Hash, desc: bool, from: Slot, stop: Option<Slot>, p: Position)
    requires Onward(desc, from, p.slot)
    ensures Rest(desc, Select(rows, address, desc, p.slot, stop), Some(p))
            == Rest(desc, Select(rows, address, desc, from, stop), Some(p))
    ensures Has(Select(rows, address, desc, from, stop), p) ==> Has(Select(rows, address, desc, p.slot, stop), p)
  {
    if rows != [] {
      hide Rest, Has, Items;
      NarrowRest(rows[1..], address, desc, from, stop, p);
      var own := Items(rows[0]);
      var near, far := Select(rows[1..], address, desc, p.slot, stop), Select(rows[1..], address, desc, from, stop);
      if Chosen(rows[0], address, desc, from, stop) {
        RestAppend(desc, own, far, Some(p));
        HasAppend(own, far, p);
        if Onward(desc, p.slot, rows[0].slot) {
          RestAppend(desc, own, near, Some(p));
          HasAppend(own, near, p);
        } else {
          RowBefore(desc, rows[0], p);
          assert [] + near == near && [] + Rest(desc, far, Some(p)) == Rest(desc, far, Some(p));
        }
      } else {
        assert !Chosen(rows[0], address, desc, p.slot, stop);
        assert [] + near == near && [] + far == far;
      }
    }
  }

  lemma RowBefore(desc: bool, row: Row, p: Position)
    requires !Onward(desc, p.slot, row.slot)
    ensures Rest(desc, Items(row), Some(p)) == [] && !Has(Items(row), p)
  {
    RestNone(desc, Items(row), p);
  }

  lemma HasAppend(a: seq<Item>, b: seq<Item>, p: Position)
    ensures Has(a + b, p) <==> Has(a, p) || Has(b, p)
  {
    if Has(b, p) {
      var i :| 0 <= i < |b| && At(b[i]) == p;
      assert (a + b)[|a| + i] == b[i];
    }
    if Has(a, p) {
      var i :| 0 <= i < |a| && At(a[i]) == p;
      assert (a + b)[i] == a[i];
    }
  }

  /** With a cursor on a listed entry, the scan delivers exactly what follows it. */
  lemma Resume(db: seq<(seq<Byte>, seq<Byte>)>, rows: seq<Row>, q: Query, cursor: Option<Position>)
    requires Stores(db, rows) && (cursor.Some? ==> Has(Listing(q, rows), cursor.value))
    ensures Skip(q.desc, if cursor.Some? then Some(cursor.value.index) else None, From(q, rows, Start(q, cursor)))
            == Rest(q.desc, Listing(q, rows), cursor)
    ensures Sorted(q.desc, Listing(q, rows))
  {
    hide Stores, Ordered, Sorted, Select, Skip, Rest;
    var met := InOrder(rows, q.desc);
    InOrderIsOrdered(db, rows, q.desc);
    SelectSorted(met, q.address, q.desc, Start(q, None), Stop(q));
    if cursor.Some? {
      var p := cursor.value;
      SelectSorted(met, q.address, q.desc, p.slot, Stop(q));
      AllOnward(met, q.address, q.desc, Start(q, None), Stop(q));
      AllOnward(met, q.address, q.desc, p.slot, Stop(q));
      NarrowRest(met, q.address, q.desc, Start(q, None), Stop(q), p);
      SkipIsRestIff(q.desc, From(q, rows, p.slot), p);
    } else {
      SkipNothing(q.desc, Listing(q, rows));
    }
  }

  lemma SkipNothing(desc: bool, items: seq<Item>)
    ensures Skip(desc, None, items) == items == Rest(desc, items, None)
  {
  }

  lemma AllOnward(rows: seq<Row>, address: Hash, desc: bool, from: Slot, stop: Option<Slot>)
    ensures forall i :: 0 <= i < |Select(rows, address, desc, from, stop)| ==>
              Onward(desc, from, Select(rows, address, desc, from, stop)[i].slot)
  {
    hide Select;
    var all := Select(rows, address, desc, from, stop);
    forall i | 0 <= i < |all| ensures Onward(desc, from, all[i].slot) {
      SelectSlots(rows, address, desc, from, stop, all[i]);
    }
  }

  // ----- what a page keeps -----

  datatype Comparison = Comparison(gte: Option<int>, gt: Option<int>, lte: Option<int>, lt: Option<int>, eq: Option<int>)

  predicate Meets(c: Comparison, v: int) {
    && (c.gte.Some? ==> v >= c.gte.value)
    && (c.gt.Some? ==> v > c.gt.value)
    && (c.lte.Some? ==> v <= c.lte.value)
    && (c.lt.Some? ==> v < c.lt.value)
    && (c.eq.Some? ==> v == c.eq.value)
  }

  predicate Below(p: Position, q: Position) {
    p.slot < q.slot || (p.slot == q.slot && p.index < q.index)
  }

  datatype PositionFilter = PositionFilter(gte: Option<Position>, gt: Option<Position>, lte: Option<Position>, lt: Option<Position>)

  predicate Admits(f: PositionFilter, p: Position) {
    && (f.gte.Some? ==> !Below(p, f.gte.value))
    && (f.gt.Some? ==> Below(f.gt.value, p))
    && (f.lte.Some? ==> !Below(f.lte.value, p))
    && (f.lt.Some? ==> Below(p, f.lt.value))
  }

  datatype TokenAccounts = NoOwners | BalanceChanged | AllOwners

  datatype StatusFilter = AnyStatus | Succeeded | Failed

  /** Options of a request; `given` is whether the request carried filters at all. */
  datatype Filters = Filters(given: bool, tokens: TokenAccounts, time: Option<Comparison>,
                             status: StatusFilter, position: Option<PositionFilter>)

  /** Block times of the slots the ring still holds. */
  type Times = map<Slot, Option<int>>

  predicate Matches(f: Filters, times: Times, item: Item)
    requires item.slot in times
  {
    && (match f.tokens
        case NoOwners => !item.status.tokenOwner
        case AllOwners => true
        case BalanceChanged => !item.status.tokenOwner || item.status.balanceChanged)
    && (f.given ==>
          && (f.time.Some? ==> times[item.slot].Some? && Meets(f.time.value, times[item.slot].value))
          && (match f.status
              case AnyStatus => true
              case Succeeded => item.status.err.None?
              case Failed => item.status.err.Some?))
    && (f.position.Some? ==> Admits(f.position.value, At(item)))
  }

  predicate Wanted(f: Filters, times: Times, item: Item) {
    item.slot in times && Matches(f, times, item)
  }

  ghost function Keep(f: Filters, times: Times, items: seq<Item>): seq<Item> {
    if items == [] then []
    else (if Wanted(f, times, items[0]) then [items[0]] else []) + Keep(f, times, items[1..])
  }

  lemma {:induction false} KeepAppend(f: Filters, times: Times, a: seq<Item>, b: seq<Item>)
    ensures Keep(f, times, a + b) == Keep(f, times, a) + Keep(f, times, b)
  {
    if a == [] {
      assert a + b == b;
    } else {
      assert (a + b)[1..] == a[1..] + b;
      KeepAppend(f, times, a[1..], b);
    }
  }

  lemma {:induction false} KeepNothing(f: Filters, times: Times, items: seq<Item>)
    requires forall i :: 0 <= i < |items| ==> !Wanted(f, times, items[i])
    ensures Keep(f, times, items) == []
  {
    if items != [] {
      KeepNothing(f, times, items[1..]);
    }
  }

  /** Resuming behind a kept entry keeps exactly the rest. */
  lemma {:induction false} KeepBehind(f: Filters, times: Times, items: seq<Item>, k: nat) returns (at: nat)
    requires k < |Keep(f, times, items)|
    ensures at < |items| && items[at] == Keep(f, times, items)[k]
    ensures Keep(f, times, items[at + 1..]) == Keep(f, times, items)[k + 1..]
  {
    if Wanted(f, times, items[0]) {
      if k == 0 {
        at := 0;
      } else {
        at := KeepBehind(f, times, items[1..], k - 1);
        assert items[1..][at + 1..] == items[at + 2..];
        at := at + 1;
      }
    } else {
      at := KeepBehind(f, times, items[1..], k);
      assert items[1..][at + 1..] == items[at + 2..];
      at := at + 1;
    }
  }

  ghost predicate AllStored(times: Times, items: seq<Item>) {
    forall i :: 0 <= i < |items| ==> items[i].slot in times
  }

  /** Entries of slots the ring has dropped, if any, are the last a scan meets. */
  ghost predicate GoneLast(times: Times, items: seq<Item>) {
    forall i, j :: 0 <= i < j < |items| && items[j].slot in times ==> items[i].slot in times
  }

  function Last(items: seq<Item>): Option<Position> {
    if items == [] then None else Some(At(items[|items| - 1]))
  }

  datatype PageResult = PageResult(data: seq<Item>, next: Option<Position>)

  /** A page of a listing: the next `limit` wanted entries, and a token unless nothing can follow. */
  ghost function PageOf(desc: bool, items: seq<Item>, f: Filters, times: Times, limit: nat, token: Option<Position>): PageResult
    requires limit > 0
  {
    var left := Rest(desc, items, token);
    var wanted := Keep(f, times, left);
    if |wanted| >= limit then PageResult(wanted[..limit], Some(At(wanted[limit - 1])))
    else PageResult(wanted, if AllStored(times, left) then None else Last(wanted))
  }

  // ----- following the tokens -----

  /** The pages a client gets by following the tokens from `token` on. */
  ghost function Follow(desc: bool, items: seq<Item>, f: Filters, times: Times, limit: nat, token: Option<Position>): seq<seq<Item>>
    requires limit > 0 && Sorted(desc, items)
    decreases |Rest(desc, items, token)|
  {
    var page := PageOf(desc, items, f, times, limit, token);
    if page.next.None? then [page.data]
    else
      PageAdvances(desc, items, f, times, limit, token);
      [page.data] + Follow(desc, items, f, times, limit, page.next)
  }

  ghost function Concat(pages: seq<seq<Item>>): seq<Item> {
    if pages == [] then [] else pages[0] + Concat(pages[1..])
  }

  lemma PageAdvances(desc: bool, items: seq<Item>, f: Filters, times: Times, limit: nat, token: Option<Position>)
    requires limit > 0 && Sorted(desc, items)
    requires PageOf(desc, items, f, times, limit, token).next.Some?
    ensures var page := PageOf(desc, items, f, times, limit, token);
            && page.data != [] && Has(items, page.next.value)
            && |Rest(desc, items, page.next)| < |Rest(desc, items, token)|
            && page.data + Keep(f, times, Rest(desc, items, page.next)) == Keep(f, times, Rest(desc, items, token))
  {
    hide Sorted, Rest, Keep;
    var left := Rest(desc, items, token);
    var page := PageOf(desc, items, f, times, limit, token);
    var wanted := Keep(f, times, left);
    var k := |page.data| - 1;
    assert wanted != [] && page.data == wanted[..k + 1] && page.next == Some(At(wanted[k]));
    var at := KeepBehind(f, times, left, k);
    RestOfRest(desc, items, token, at);
  }

  /** Following the tokens to the end yields every wanted entry exactly once, in order. */
  lemma {:induction false} FollowIsComplete(desc: bool, items: seq<Item>, f: Filters, times: Times, limit: nat, token: Option<Position>)
    requires limit > 0 && Sorted(desc, items)
    ensures Concat(Follow(desc, items, f, times, limit, token)) == Keep(f, times, Rest(desc, items, token))
    ensures forall i :: 0 <= i < |Follow(desc, items, f, times, limit, token)| ==>
              |Follow(desc, items, f, times, limit, token)[i]| <= limit
    decreases |Rest(desc, items, token)|
  {
    hide Sorted, Rest, Keep, Has;
    var page := PageOf(desc, items, f, times, limit, token);
    var pages := Follow(desc, items, f, times, limit, token);
    if page.next.Some? {
      PageAdvances(desc, items, f, times, limit, token);
      FollowIsComplete(desc, items, f, times, limit, page.next);
      assert pages[1..] == Follow(desc, items, f, times, limit, page.next);
    } else {
      assert pages[1..] == [];
    }
  }

  // ----- the page loop -----

  /** Drop entries of slots the ring no longer holds; then the scan is not finished. */
  method Complete(times: Times, items: seq<Item>, scanned: bool) returns (kept: seq<Item>, finished: bool)
    requires GoneLast(times, items)
    ensures kept <= items && AllStored(times, kept)
    ensures |kept| < |items| ==> items[|kept|].slot !in times
    ensures finished == (scanned && kept == items)
  {
    kept, finished := [], scanned;
    for i := 0 to |items|
      invariant |kept| <= i && kept == items[..|kept|] && AllStored(times, kept)
      invariant |kept| < i ==> items[|kept|].slot !in times
      invariant finished == (scanned && |kept| == i)
    {
      if items[i].slot in times {
        kept := kept + [items[i]];
      } else {
        finished := false;
      }
    }
    assert |kept| == |items| ==> kept == items;
  }

  /** One batch: advance the cursor over every entry, take the wanted ones until the page is full. */
  method TakeWanted(batch: seq<Item>, f: Filters, times: Times, limit: nat, data0: seq<Item>, cursor0: Option<Position>)
    returns (data: seq<Item>, cursor: Option<Position>, pageCursor: Option<Position>, reached: bool)
    requires |data0| < limit && AllStored(times, batch)
    ensures pageCursor == Last(data)
    ensures !reached ==> data == data0 + Keep(f, times, batch) && |data| < limit
    ensures !reached ==> cursor == if batch == [] then cursor0 else Last(batch)
    ensures reached ==> |data| == limit && data <= data0 + Keep(f, times, batch)
  {
    hide Matches, Wanted;
    data, cursor, pageCursor, reached := data0, cursor0, Last(data0), false;
    for i := 0 to |batch|
      invariant |data| < limit && pageCursor == Last(data)
      invariant data + Keep(f, times, batch[i..]) == data0 + Keep(f, times, batch)
      invariant cursor == if i == 0 then cursor0 else Some(At(batch[i - 1]))
    {
      var item := batch[i];
      assert batch[i..][0] == item && batch[i..][1..] == batch[i + 1..];
      cursor := Some(At(item));
      if Wanted(f, times, item) {
        data := data + [item];
        pageCursor := Some(At(item));
        if |data| == limit {
          reached := true;
          return;
        }
      }
    }
  }

  function RequestLimit(f: Filters, remaining: nat, most: nat): (r: nat)
    ensures r >= remaining && (r == remaining || (f.given && r <= 4 * remaining && r <= most))
    ensures f.given ==> 4 * remaining <= r || most <= r
  {
    var batch := if 4 * remaining < most then 4 * remaining else most;
    if f.given && batch > remaining then batch else remaining
  }

  /** How far a page has come: `done` entries of what the token left have been examined. */
  ghost predicate Progress(desc: bool, items: seq<Item>, f: Filters, times: Times, token: Option<Position>,
                           cursor: Option<Position>, data: seq<Item>, done: nat) {
    var left := Rest(desc, items, token);
    && done <= |left|
    && Rest(desc, items, cursor) == left[done..]
    && data == Keep(f, times, left[..done])
    && AllStored(times, left[..done])
    && (cursor.Some? ==> Has(items, cursor.value))
  }

  lemma Slices(f: Filters, times: Times, left: seq<Item>, done: nat, kept: seq<Item>)
    requires done <= |left| && kept <= left[done..]
    ensures done + |kept| <= |left| && left[..done + |kept|] == left[..done] + kept
    ensures kept != [] ==> left[done + |kept| - 1] == kept[|kept| - 1]
    ensures Keep(f, times, left[..done + |kept|]) == Keep(f, times, left[..done]) + Keep(f, times, kept)
  {
    hide Keep;
    assert left[..done + |kept|] == left[..done] + kept;
    KeepAppend(f, times, left[..done], kept);
  }

  lemma KeepPrefix(f: Filters, times: Times, left: seq<Item>, n: nat)
    requires n <= |left|
    ensures Keep(f, times, left[..n]) <= Keep(f, times, left)
  {
    hide Keep;
    assert left == left[..n] + left[n..];
    KeepAppend(f, times, left[..n], left[n..]);
  }

  lemma AllStoredAppend(times: Times, a: seq<Item>, b: seq<Item>)
    requires AllStored(times, a) && AllStored(times, b)
    ensures AllStored(times, a + b)
  {
  }

  lemma Behind(left: seq<Item>, done: nat, kept: seq<Item>)
    requires done <= |left| && kept <= left[done..]
    ensures done + |kept| <= |left| && (kept == [] ==> left[done + |kept|..] == left[done..])
  {
  }

  lemma Advance(desc: bool, items: seq<Item>, f: Filters, times: Times, token: Option<Position>,
                cursor: Option<Position>, data: seq<Item>, done: nat, kept: seq<Item>)
    requires Sorted(desc, items) && Progress(desc, items, f, times, token, cursor, data, done)
    requires AllStored(times, kept) && kept <= Rest(desc, items, token)[done..]
    ensures Progress(desc, items, f, times, token, if kept == [] then cursor else Last(kept),
                     data + Keep(f, times, kept), done + |kept|)
    ensures done + |kept| <= |Rest(desc, items, token)|
  {
    hide Sorted, Has, Rest, Keep, AllStored, RequestLimit, Matches, Wanted;
    var left := Rest(desc, items, token);
    Slices(f, times, left, done, kept);
    AllStoredAppend(times, left[..done], kept);
    Behind(left, done, kept);
    if kept != [] {
      RestOfRest(desc, items, token, done + |kept| - 1);
    }
  }

  /** The page is full. */
  lemma Full(desc: bool, items: seq<Item>, f: Filters, times: Times, token: Option<Position>, cursor: Option<Position>,
             data0: seq<Item>, done: nat, kept: seq<Item>, data: seq<Item>, limit: nat)
    requires Progress(desc, items, f, times, token, cursor, data0, done) && limit > 0
    requires kept <= Rest(desc, items, token)[done..] && |data| == limit && data <= data0 + Keep(f, times, kept)
    ensures PageOf(desc, items, f, times, limit, token) == PageResult(data, Last(data))
  {
    hide Has, Rest, Keep, AllStored;
    var left := Rest(desc, items, token);
    Slices(f, times, left, done, kept);
    KeepPrefix(f, times, left, done + |kept|);
  }

  /** Nothing is left, or only entries of dropped slots. */
  lemma Exhausted(desc: bool, items: seq<Item>, f: Filters, times: Times, token: Option<Position>, cursor: Option<Position>,
                  data: seq<Item>, done: nat, limit: nat)
    requires Progress(desc, items, f, times, token, cursor, data, done) && |data| < limit
    requires Sorted(desc, items) && GoneLast(times, items)
    requires var left := Rest(desc, items, token); done < |left| ==> left[done].slot !in times
    ensures var left := Rest(desc, items, token);
            PageOf(desc, items, f, times, limit, token) == PageResult(data, if done == |left| then None else Last(data))
  {
    hide Sorted, Has, Rest, Keep, GoneLast, AllStored;
    var left := Rest(desc, items, token);
    BatchGoneLast(desc, items, times, token, 0, left);
    NothingStored(f, times, left, done);
  }

  lemma NothingStored(f: Filters, times: Times, left: seq<Item>, done: nat)
    requires done <= |left| && GoneLast(times, left) && AllStored(times, left[..done])
    requires done < |left| ==> left[done].slot !in times
    ensures Keep(f, times, left) == Keep(f, times, left[..done])
    ensures AllStored(times, left) <==> done == |left|
  {
    hide Keep;
    assert left == left[..done] + left[done..];
    KeepAppend(f, times, left[..done], left[done..]);
    forall i | 0 <= i < |left[done..]| ensures left[done..][i].slot !in times {
      assert left[done..][i] == left[done + i];
    }
    KeepNothing(f, times, left[done..]);
  }

  lemma Begin(desc: bool, items: seq<Item>, f: Filters, times: Times, token: Option<Position>)
    requires token.Some? ==> Has(items, token.value)
    ensures Progress(desc, items, f, times, token, token, [], 0)
  {
    hide Rest, Has;
    var left := Rest(desc, items, token);
    assert left[..0] == [] && left[0..] == left;
  }

  lemma ListedSlots(db: seq<(seq<Byte>, seq<Byte>)>, rows: seq<Row>, q: Query, p: Position)
    requires Stores(db, rows) && Has(Listing(q, rows), p)
    ensures p.slot < TWO_64
  {
    hide Select, KeyLess, EncodeRow, RowKey;
    var all := Listing(q, rows);
    var i :| 0 <= i < |all| && At(all[i]) == p;
    var met := InOrder(rows, q.desc);
    SelectSlots(met, q.address, q.desc, Start(q, None), Stop(q), all[i]);
    var k :| 0 <= k < |met| && all[i] in Items(met[k]);
    assert Holds(db[Place(|rows|, q.desc, k)], rows[Place(|rows|, q.desc, k)]);
  }

  /** The scan from the cursor starts at a real slot and meets what the page has not examined yet. */
  lemma CursorFits(db: seq<(seq<Byte>, seq<Byte>)>, rows: seq<Row>, q: Query, f: Filters, times: Times,
                   token: Option<Position>, cursor: Option<Position>, data: seq<Item>, done: nat)
    requires Stores(db, rows) && Start(q, None) < TWO_64
    requires Progress(q.desc, Listing(q, rows), f, times, token, cursor, data, done)
    ensures Start(q, cursor) < TWO_64 && done <= |Rest(q.desc, Listing(q, rows), token)|
    ensures Skip(q.desc, if cursor.Some? then Some(cursor.value.index) else None, From(q, rows, Start(q, cursor)))
            == Rest(q.desc, Listing(q, rows), token)[done..]
  {
    hide Stores, Rest, Has, Skip, Select, Keep, AllStored;
    Resume(db, rows, q, cursor);
    if cursor.Some? {
      ListedSlots(db, rows, q, cursor.value);
    }
  }

  lemma BatchGoneLast(desc: bool, items: seq<Item>, times: Times, token: Option<Position>, done: nat, batch: seq<Item>)
    requires Sorted(desc, items) && GoneLast(times, items)
    requires done <= |Rest(desc, items, token)| && batch <= Rest(desc, items, token)[done..]
    ensures GoneLast(times, batch)
  {
    hide Sorted, Rest;
    RestIsSuffix(desc, items, token);
    var d := |items| - |Rest(desc, items, token)| + done;
    assert forall i :: 0 <= i < |batch| ==> batch[i] == items[d + i];
  }

  /** One storage request: a first part of what is left, entries of dropped slots removed. */
  method ReadBatch(db: seq<(seq<Byte>, seq<Byte>)>, ghost rows: seq<Row>, q: Query, times: Times,
                   cursor: Option<Position>, request: nat, ghost left: seq<Item>)
    returns (kept: seq<Item>, finished: bool)
    requires Stores(db, rows) && Start(q, cursor) < TWO_64 && request > 0 && GoneLast(times, left)
    requires left == Skip(q.desc, if cursor.Some? then Some(cursor.value.index) else None, From(q, rows, Start(q, cursor)))
    ensures kept <= left && AllStored(times, kept)
    ensures finished ==> kept == left
    ensures kept == [] && !finished ==> left != [] && left[0].slot !in times
  {
    hide Stores, Select, AllStored, Skip;
    var batch, scanned := Scan(db, rows, q.address, q.desc, Start(q, cursor),
                               if cursor.Some? then Some(cursor.value.index) else None, Stop(q), [], request);
    assert [] + left == left;
    kept, finished := Complete(times, batch, scanned);
  }

  /**
   `process`: batches of the scan until the page is full or the scan is
   exhausted. The page is the one its token calls for, and every batch but the
   last examines at least one more entry.
   */
  method Page(db: seq<(seq<Byte>, seq<Byte>)>, ghost rows: seq<Row>, q: Query, f: Filters, times: Times,
              limit: nat, most: nat, token: Option<Position>) returns (page: PageResult)
    requires Stores(db, rows) && limit > 0
    requires Newest(q) < TWO_64 && Start(q, None) < TWO_64
    requires GoneLast(times, Listing(q, rows))
    requires token.Some? ==> Has(Listing(q, rows), token.value)
    ensures page == PageOf(q.desc, Listing(q, rows), f, times, limit, token)
  {
    hide Stores, Sorted, Has, Rest, Keep, GoneLast, Select, Matches, AllStored, Skip, Progress, PageOf, From, Listing;
    ghost var items := Listing(q, rows);
    ListingSorted(db, rows, q);
    Begin(q.desc, items, f, times, token);
    var data: seq<Item>, cursor, pageCursor := [], token, None;
    ghost var done: nat := 0;
    while true
      invariant |data| < limit && pageCursor == Last(data)
      invariant Progress(q.desc, items, f, times, token, cursor, data, done)
      decreases |Rest(q.desc, items, token)| - done
    {
      ghost var left := Rest(q.desc, items, token);
      ghost var before, data0 := cursor, data;
      CursorFits(db, rows, q, f, times, token, cursor, data, done);
      BatchGoneLast(q.desc, items, times, token, done, left[done..]);
      var kept, finished := ReadBatch(db, rows, q, times, cursor, RequestLimit(f, limit - |data|, most), left[done..]);
      var reached;
      data, cursor, pageCursor, reached := TakeWanted(kept, f, times, limit, data, cursor);
      if reached {
        Full(q.desc, items, f, times, token, before, data0, done, kept, data, limit);
        return PageResult(data, pageCursor);
      }
      Advance(q.desc, items, f, times, token, before, data0, done, kept);
      done := done + |kept|;
      if finished || kept == [] {
        Exhausted(q.desc, items, f, times, token, cursor, data, done, limit);
        return PageResult(data, if finished then None else pageCursor);
      }
    }
  }

  lemma ListingSorted(db: seq<(seq<Byte>, seq<Byte>)>, rows: seq<Row>, q: Query)
    requires Stores(db, rows)
    ensures Sorted(q.desc, Listing(q, rows))
  {
    InOrderIsOrdered(db, rows, q.desc);
    SelectSorted(InOrder(rows, q.desc), q.address, q.desc, Start(q, None), Stop(q));
  }
}
