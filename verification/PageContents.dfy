/**
 What a page of getTransactionsForAddress holds, entry by entry: which stored
 entries a request ranges over, and for each of them whether the page has it or
 why not.
 */
module PageContents {
  import opened Common
  import opened Codec
  import opened AddressScan
  import opened Paging

  // ----- the range of a request -----

  /** The entry is one of the address's, in a slot the request asks for and may see. */
  ghost predicate Asked(q: Query, rows: seq<Row>, item: Item) {
    && (exists i :: 0 <= i < |rows| && rows[i].address == q.address && rows[i].slot == item.slot && item.status in rows[i].entries)
    && (q.lower.Some? ==> q.lower.value <= item.slot)
    && (q.upper.Some? ==> item.slot <= q.upper.value)
    && item.slot <= q.commitment
    // oldest first, the listing starts at the first slot of the ring
    && (!q.desc ==> q.firstAvailable <= item.slot)
  }

  /** The listing holds exactly the entries asked for. */
  lemma ListingIff(q: Query, rows: seq<Row>, item: Item)
    ensures item in Listing(q, rows) <==> Asked(q, rows, item)
  {
    hide Select, Items;
    var met := InOrder(rows, q.desc);
    SelectIff(met, q.address, q.desc, Start(q, None), Stop(q), item);
    if item in Listing(q, rows) {
      var k :| 0 <= k < |met| && Chosen(met[k], q.address, q.desc, Start(q, None), Stop(q)) && item in Items(met[k]);
      MetEntries(rows, q.desc, k, item);
    }
    if Asked(q, rows, item) {
      var i :| 0 <= i < |rows| && rows[i].address == q.address && rows[i].slot == item.slot && item.status in rows[i].entries;
      var k := Place(|rows|, q.desc, i);
      MetEntries(rows, q.desc, k, item);
      assert Chosen(met[k], q.address, q.desc, Start(q, None), Stop(q)) && item in Items(met[k]);
    }
  }

  lemma {:induction false} SelectIff(rows: seq<Row>, address: Hash, desc: bool, from: Slot, stop: Option<Slot>, item: Item)
    ensures item in Select(rows, address, desc, from, stop)
            <==> exists i :: 0 <= i < |rows| && Chosen(rows[i], address, desc, from, stop) && item in Items(rows[i])
  {
    hide Chosen, Items;
    if rows != [] {
      SelectIff(rows[1..], address, desc, from, stop, item);
      assert forall i :: 0 < i < |rows| ==> rows[i] == rows[1..][i - 1];
      if i :| 0 <= i < |rows[1..]| && Chosen(rows[1..][i], address, desc, from, stop) && item in Items(rows[1..][i]) {
        assert rows[i + 1] == rows[1..][i];
      }
    }
  }

  /** A scan meets the entries of a row in one order or the other. */
  lemma MetEntries(rows: seq<Row>, desc: bool, k: nat, item: Item)
    requires k < |rows|
    ensures var row := rows[Place(|rows|, desc, k)];
            && InOrder(rows, desc)[k].slot == row.slot && InOrder(rows, desc)[k].address == row.address
            && (item in Items(InOrder(rows, desc)[k]) <==> item.slot == row.slot && item.status in row.entries)
  {
    var row, met := rows[Place(|rows|, desc, k)], InOrder(rows, desc)[k];
    assert forall i :: 0 <= i < |row.entries| ==> Reversed(row.entries)[|row.entries| - 1 - i] == row.entries[i];
    if item.slot == row.slot && item.status in row.entries {
      var i :| 0 <= i < |row.entries| && row.entries[i] == item.status;
      assert Items(met)[if desc then i else |row.entries| - 1 - i] == item;
    }
  }

  // ----- why an entry is left out -----

  predicate OutsideTime(c: Comparison, t: int) {
    || (c.gte.Some? && t < c.gte.value) || (c.gt.Some? && t <= c.gt.value)
    || (c.lte.Some? && c.lte.value < t) || (c.lt.Some? && c.lt.value <= t)
    || (c.eq.Some? && t != c.eq.value)
  }

  predicate OutsidePosition(f: PositionFilter, slot: Slot, index: nat) {
    || (f.gte.Some? && (slot < f.gte.value.slot || (slot == f.gte.value.slot && index < f.gte.value.index)))
    || (f.gt.Some? && (slot < f.gt.value.slot || (slot == f.gt.value.slot && index <= f.gt.value.index)))
    || (f.lte.Some? && (f.lte.value.slot < slot || (f.lte.value.slot == slot && f.lte.value.index < index)))
    || (f.lt.Some? && (f.lt.value.slot < slot || (f.lt.value.slot == slot && f.lt.value.index <= index)))
  }

  /** A reason why the request does not want the entry. */
  predicate Rejected(f: Filters, times: Times, item: Item) {
    || item.slot !in times
    || (f.tokens == NoOwners && item.status.tokenOwner)
    || (f.tokens == BalanceChanged && item.status.tokenOwner && !item.status.balanceChanged)
    || (f.given && f.status == Succeeded && item.status.err.Some?)
    || (f.given && f.status == Failed && item.status.err.None?)
    || (f.given && f.time.Some? && (times[item.slot].None? || OutsideTime(f.time.value, times[item.slot].value)))
    || (f.position.Some? && OutsidePosition(f.position.value, item.slot, item.status.index))
  }

  lemma WantedUnlessRejected(f: Filters, times: Times, item: Item)
    ensures Wanted(f, times, item) <==> !Rejected(f, times, item)
  {
  }

  lemma {:induction false} KeepIff(f: Filters, times: Times, items: seq<Item>, item: Item)
    ensures item in Keep(f, times, items) <==> item in items && !Rejected(f, times, item)
  {
    hide Wanted, Rejected;
    if items != [] {
      WantedUnlessRejected(f, times, items[0]);
      KeepIff(f, times, items[1..], item);
    }
  }

  ghost predicate After(desc: bool, token: Option<Position>, item: Item) {
    token.Some? ==> Later(desc, token.value, At(item))
  }

  lemma {:induction false} RestIff(desc: bool, items: seq<Item>, token: Option<Position>, item: Item)
    ensures item in Rest(desc, items, token) <==> item in items && After(desc, token, item)
  {
    if items != [] && token.Some? {
      RestIff(desc, items[1..], token, item);
    }
  }

  lemma {:induction false} KeepSorted(desc: bool, f: Filters, times: Times, items: seq<Item>)
    requires Sorted(desc, items)
    ensures Sorted(desc, Keep(f, times, items))
  {
    hide Wanted, Later;
    if items != [] {
      KeepSorted(desc, f, times, items[1..]);
      var kept := Keep(f, times, items[1..]);
      forall j | 0 <= j < |kept| ensures Later(desc, At(items[0]), At(kept[j])) {
        KeepIff(f, times, items[1..], kept[j]);
        assert kept[j] in items[1..];
      }
    }
  }

  // ----- pages -----

  /**
   A page holds listed entries after its token that nothing speaks against, in
   order and at most `limit`. A listed entry after the token is missing only for
   a reason, or because it comes after the last entry of a full page.
   */
  lemma PageIsRight(desc: bool, items: seq<Item>, f: Filters, times: Times, limit: nat, token: Option<Position>)
    requires limit > 0 && Sorted(desc, items)
    ensures var data := PageOf(desc, items, f, times, limit, token).data;
      && |data| <= limit && Sorted(desc, data)
      && (forall item :: item in data ==> item in items && After(desc, token, item) && !Rejected(f, times, item))
      && forall item :: item in items && After(desc, token, item) && item !in data ==>
           Rejected(f, times, item) || (|data| == limit && Later(desc, At(data[limit - 1]), At(item)))
  {
    hide Keep, Rest, Rejected, Later;
    var left := Rest(desc, items, token);
    var wanted := Keep(f, times, left);
    var data := PageOf(desc, items, f, times, limit, token).data;
    RestIsSuffix(desc, items, token);
    KeepSorted(desc, f, times, left);
    assert data == if |wanted| >= limit then wanted[..limit] else wanted;
    forall item | item in data ensures item in items && After(desc, token, item) && !Rejected(f, times, item) {
      KeepIff(f, times, left, item);
      RestIff(desc, items, token, item);
    }
    forall item | item in items && After(desc, token, item) && item !in data && !Rejected(f, times, item)
      ensures |data| == limit && Later(desc, At(data[limit - 1]), At(item))
    {
      KeepIff(f, times, left, item);
      RestIff(desc, items, token, item);
      var k :| 0 <= k < |wanted| && wanted[k] == item;
      assert forall i :: 0 <= i < |data| ==> data[i] == wanted[i] && data[i] in data;
    }
  }

  /** The token names the last entry of the page; without one, every listed entry left out is left out for a reason and no slot has been dropped. */
  lemma TokenIsRight(desc: bool, items: seq<Item>, f: Filters, times: Times, limit: nat, token: Option<Position>)
    requires limit > 0 && Sorted(desc, items)
    ensures var page := PageOf(desc, items, f, times, limit, token);
      && (page.next.Some? ==> page.data != [] && page.next.value == At(page.data[|page.data| - 1]))
      && (page.next.None? ==>
            forall item :: item in items && After(desc, token, item) && item !in page.data ==> Rejected(f, times, item))
  {
    hide Keep, Rest, Rejected, Later;
    PageIsRight(desc, items, f, times, limit, token);
    var left := Rest(desc, items, token);
    var page := PageOf(desc, items, f, times, limit, token);
    if page.next.None? {
      forall item | item in items && After(desc, token, item) && item !in page.data ensures Rejected(f, times, item) {
        KeepIff(f, times, left, item);
        RestIff(desc, items, token, item);
      }
    }
  }
}
