/**
 How the filters of getTransactionsForAddress narrow the scanned slots
 (src/rpc/api_jsonrpc.rs and src/storage/read.rs). Position and block-time
 filters are checked again on every entry, so their bounds may only save work;
 the slot filter is enforced by its bounds alone.
 */
module PagingBounds {
  import opened Common
  import opened Codec
  import opened AddressScan
  import opened Paging

  const MAX: int := TWO_63 - 1
  const MIN: int := -TWO_63

  predicate Signed(v: Option<int>) {
    v.Some? ==> MIN <= v.value <= MAX
  }

  predicate SignedComparison(c: Comparison) {
    Signed(c.gte) && Signed(c.gt) && Signed(c.lte) && Signed(c.lt) && Signed(c.eq)
  }

  function Larger(a: Option<int>, b: Option<int>): Option<int> {
    if a.None? then b else if b.None? then a else if a.value < b.value then b else a
  }

  function Smaller(a: Option<int>, b: Option<int>): Option<int> {
    if a.None? then b else if b.None? then a else if b.value < a.value then b else a
  }

  function LowerBound(c: Comparison): Option<int> {
    if c.eq.Some? then c.eq
    else Larger(c.gte, if c.gt.None? then None else if c.gt.value >= MAX then Some(MAX) else Some(c.gt.value + 1))
  }

  function UpperBound(c: Comparison): Option<int> {
    if c.eq.Some? then c.eq
    else Smaller(c.lte, if c.lt.None? then None else if c.lt.value <= MIN then Some(MIN) else Some(c.lt.value - 1))
  }

  /** The bounds of a slot filter: negative ones become slot 0. */
  function SlotBound(b: Option<int>): Option<Slot> {
    if b.None? then None else if b.value < 0 then Some(0) else Some(b.value)
  }

  predicate Between(lower: Option<Slot>, upper: Option<Slot>, slot: Slot) {
    (lower.Some? ==> lower.value <= slot) && (upper.Some? ==> slot <= upper.value)
  }

  ghost predicate BoundsAgree(c: Comparison) {
    forall s: Slot :: s <= MAX ==>
      (Between(SlotBound(LowerBound(c)), SlotBound(UpperBound(c)), s) <==> Meets(c, s))
  }

  /** An `eq` the other bounds reject, a negative upper bound, or `gt` at the largest number. */
  predicate Misread(c: Comparison) {
    if c.eq.Some? then c.eq.value < 0 || !Meets(c, c.eq.value)
    else
      var lower, upper := LowerBound(c), UpperBound(c);
      || (upper.Some? && upper.value < 0 && (lower.None? || lower.value <= 0))
      || (c.gt == Some(MAX) && (upper.None? || upper.value >= MAX))
  }

  /** The slot filter means what it says exactly when it is not one of the misread ones. */
  lemma SlotFilterIff(c: Comparison)
    requires SignedComparison(c)
    ensures BoundsAgree(c) <==> !Misread(c)
  {
    var lower, upper := SlotBound(LowerBound(c)), SlotBound(UpperBound(c));
    if Misread(c) {
      var s: Slot := if c.eq.Some? then (if c.eq.value < 0 then 0 else c.eq.value)
                     else if UpperBound(c).Some? && UpperBound(c).value < 0 then 0 else MAX;
      assert Between(lower, upper, s) && !Meets(c, s);
    }
  }

  /** For instance `eq: 5, gt: 10` asks for nothing and lists slot 5. */
  lemma SlotFilterMisreadExample()
    ensures var c := Comparison(None, Some(10), None, None, Some(5));
            Between(SlotBound(LowerBound(c)), SlotBound(UpperBound(c)), 5) && !Meets(c, 5)
  {
  }

  // ----- narrowing a range -----

  predicate InRange(q: Query, slot: Slot) {
    Onward(q.desc, Start(q, None), slot) && Within(q.desc, Stop(q), slot)
  }

  /** The narrower range leaves out only unwanted entries. */
  ghost predicate Harmless(wide: Query, narrow: Query, f: Filters, times: Times) {
    && wide.address == narrow.address && wide.desc == narrow.desc
    && (forall s :: InRange(narrow, s) ==> InRange(wide, s))
    && (forall item :: Wanted(f, times, item) && InRange(wide, item.slot) ==> InRange(narrow, item.slot))
  }

  lemma KeepRow(row: Row, wide: Query, narrow: Query, f: Filters, times: Times)
    requires Harmless(wide, narrow, f, times) && row.address == wide.address
    ensures InRange(narrow, row.slot) ==> InRange(wide, row.slot)
    ensures InRange(wide, row.slot) && !InRange(narrow, row.slot) ==> Keep(f, times, Items(row)) == []
  {
    hide Wanted, Keep;
    if InRange(wide, row.slot) && !InRange(narrow, row.slot) {
      KeepNothing(f, times, Items(row));
    }
  }

  /** A harmless narrowing selects the same wanted entries. */
  lemma {:induction false} KeepSelect(rows: seq<Row>, wide: Query, narrow: Query, f: Filters, times: Times)
    requires Harmless(wide, narrow, f, times)
    ensures Keep(f, times, Select(rows, wide.address, wide.desc, Start(narrow, None), Stop(narrow)))
            == Keep(f, times, Select(rows, wide.address, wide.desc, Start(wide, None), Stop(wide)))
  {
    if rows != [] {
      hide Harmless, Keep, Items, Start, Stop, Onward, Within;
      var desc, a, own := wide.desc, wide.address, Items(rows[0]);
      KeepSelect(rows[1..], wide, narrow, f, times);
      var more := Select(rows[1..], a, desc, Start(wide, None), Stop(wide));
      var fewer := Select(rows[1..], a, desc, Start(narrow, None), Stop(narrow));
      KeepAppend(f, times, own, more);
      KeepAppend(f, times, own, fewer);
      assert wide.desc == narrow.desc by { SameSide(wide, narrow, f, times); }
      if a == rows[0].address {
        KeepRow(rows[0], wide, narrow, f, times);
      }
      assert [] + more == more && [] + fewer == fewer;
      assert [] + Keep(f, times, more) == Keep(f, times, more);
    }
  }

  lemma SameSide(wide: Query, narrow: Query, f: Filters, times: Times)
    requires Harmless(wide, narrow, f, times)
    ensures wide.address == narrow.address && wide.desc == narrow.desc
  {
  }

  function LaterBound(a: Option<Slot>, b: Option<Slot>): Option<Slot> {
    if a.None? then b else if b.None? then a else if a.value < b.value then b else a
  }

  function EarlierBound(a: Option<Slot>, b: Option<Slot>): Option<Slot> {
    if a.None? then b else if b.None? then a else if b.value < a.value then b else a
  }

  function SlotOf(p: Option<Position>): Option<Slot> {
    if p.None? then None else Some(p.value.slot)
  }

  /** The slot range refined by resolved signature positions. */
  function NarrowByPosition(q: Query, f: Filters): Query {
    if f.position.None? then q
    else
      var p := f.position.value;
      q.(lower := LaterBound(q.lower, LaterBound(SlotOf(p.gte), SlotOf(p.gt))),
         upper := EarlierBound(q.upper, EarlierBound(SlotOf(p.lte), SlotOf(p.lt))))
  }

  /** A position filter narrows the range to the slots of its bounds, and no further. */
  lemma NarrowedByPosition(q: Query, f: Filters, slot: Slot)
    requires f.position.Some?
    ensures var p := f.position.value;
      InRange(NarrowByPosition(q, f), slot) <==>
        && InRange(q, slot)
        && (p.gte.Some? ==> p.gte.value.slot <= slot) && (p.gt.Some? ==> p.gt.value.slot <= slot)
        && (p.lte.Some? ==> slot <= p.lte.value.slot) && (p.lt.Some? ==> slot <= p.lt.value.slot)
  {
  }

  lemma WantedIsAdmitted(f: Filters, times: Times, item: Item)
    requires Wanted(f, times, item) && f.position.Some?
    ensures Admits(f.position.value, At(item))
  {
  }

  /** An admitted position lies within the slots of the filter's bounds. */
  lemma AdmittedInRange(q: Query, f: Filters, p: Position)
    requires f.position.Some? ==> Admits(f.position.value, p)
    requires InRange(q, p.slot)
    ensures InRange(NarrowByPosition(q, f), p.slot)
  {
  }

  lemma NarrowerByPosition(q: Query, f: Filters, slot: Slot)
    requires InRange(NarrowByPosition(q, f), slot)
    ensures InRange(q, slot)
  {
  }

  lemma PositionHarmless(q: Query, f: Filters, times: Times)
    ensures Harmless(q, NarrowByPosition(q, f), f, times)
  {
    hide Wanted, InRange, Admits;
    var narrow := NarrowByPosition(q, f);
    forall s | InRange(narrow, s) ensures InRange(q, s) {
      NarrowerByPosition(q, f, s);
    }
    forall item | Wanted(f, times, item) && InRange(q, item.slot) ensures InRange(narrow, item.slot) {
      if f.position.Some? {
        WantedIsAdmitted(f, times, item);
      }
      AdmittedInRange(q, f, At(item));
    }
  }

  lemma PositionBoundsLoseNothing(rows: seq<Row>, q: Query, f: Filters, times: Times)
    ensures Keep(f, times, Listing(NarrowByPosition(q, f), rows)) == Keep(f, times, Listing(q, rows))
  {
    hide NarrowByPosition, Harmless, Select, Keep, InOrder;
    PositionHarmless(q, f, times);
    SameSide(q, NarrowByPosition(q, f), f, times);
    KeepSelect(InOrder(rows, q.desc), q, NarrowByPosition(q, f), f, times);
  }

  // ----- block times -----

  /** `range((gte, 0)..).next()`: the slot of the first pair at or after a time. */
  ghost predicate FirstFrom(index: set<(int, Slot)>, time: int, r: Option<Slot>) {
    if r.None? then forall p :: p in index ==> p.0 < time
    else exists t :: (t, r.value) in index && t >= time
                     && forall p :: p in index && p.0 >= time ==> t < p.0 || (t == p.0 && r.value <= p.1)
  }

  /** `range(..=(lte, MAX)).next_back()`: the slot of the last pair up to a time. */
  ghost predicate LastUpTo(index: set<(int, Slot)>, time: int, r: Option<Slot>) {
    if r.None? then forall p :: p in index ==> p.0 > time
    else exists t :: (t, r.value) in index && t <= time
                     && forall p :: p in index && p.0 <= time ==> p.0 < t || (t == p.0 && p.1 <= r.value)
  }

  ghost predicate Monotone(index: set<(int, Slot)>) {
    forall a, b :: a in index && b in index && a.1 < b.1 ==> a.0 <= b.0
  }

  ghost predicate Indexes(index: set<(int, Slot)>, times: Times) {
    && (forall s :: s in times && times[s].Some? ==> (times[s].value, s) in index)
    && (forall s :: s in times ==> Signed(times[s]))
  }

  /** The refinement in src/storage/read.rs; `first` and `last` are the index lookups. */
  function NarrowByTime(q: Query, c: Comparison, first: Option<Slot>, last: Option<Slot>): Query {
    q.(lower := if LowerBound(c).None? then q.lower else if q.lower.None? then first
                else LaterBound(q.lower, first),
       upper := if UpperBound(c).None? then q.upper else if q.upper.None? then last
                else EarlierBound(q.upper, last))
  }

  /** A time filter narrows the range to the slots its lookups found. */
  lemma NarrowedByTime(q: Query, c: Comparison, first: Option<Slot>, last: Option<Slot>, slot: Slot)
    ensures InRange(NarrowByTime(q, c, first, last), slot) <==>
      && InRange(q, slot)
      && (LowerBound(c).Some? && first.Some? ==> first.value <= slot)
      && (UpperBound(c).Some? && last.Some? ==> slot <= last.value)
  {
  }

  /** The bounds of a time filter: its `eq`, or else exactly what its lower and its upper options say together. */
  lemma BoundsAreTight(c: Comparison, t: int)
    requires SignedComparison(c)
    ensures c.eq.Some? ==> LowerBound(c) == UpperBound(c) == c.eq
    ensures c.eq.None? && c.gt != Some(MAX) ==>
              (LowerBound(c).None? || LowerBound(c).value <= t
               <==> (c.gte.Some? ==> c.gte.value <= t) && (c.gt.Some? ==> c.gt.value < t))
    ensures c.eq.None? && c.lt != Some(MIN) ==>
              (UpperBound(c).None? || t <= UpperBound(c).value
               <==> (c.lte.Some? ==> t <= c.lte.value) && (c.lt.Some? ==> t < c.lt.value))
  {
  }

  lemma BoundsAreNecessary(c: Comparison, t: int)
    requires Meets(c, t) && MIN <= t <= MAX
    ensures LowerBound(c).Some? ==> LowerBound(c).value <= t
    ensures UpperBound(c).Some? ==> t <= UpperBound(c).value
  {
  }

  lemma TimeBoundsHold(index: set<(int, Slot)>, c: Comparison, first: Option<Slot>, last: Option<Slot>, t: int, slot: Slot)
    requires Monotone(index) && (t, slot) in index && Meets(c, t) && MIN <= t <= MAX
    requires LowerBound(c).Some? ==> FirstFrom(index, LowerBound(c).value, first)
    requires UpperBound(c).Some? ==> LastUpTo(index, UpperBound(c).value, last)
    ensures LowerBound(c).Some? ==> first.Some? && first.value <= slot
    ensures UpperBound(c).Some? ==> last.Some? && slot <= last.value
  {
    BoundsAreNecessary(c, t);
  }

  /** With block times that never fall, the bounds taken from the time index lose no wanted entry. */
  lemma TimeBoundsLoseNothing(rows: seq<Row>, q: Query, f: Filters, times: Times, index: set<(int, Slot)>,
                              first: Option<Slot>, last: Option<Slot>)
    requires f.given && f.time.Some? && Monotone(index) && Indexes(index, times)
    requires LowerBound(f.time.value).Some? ==> FirstFrom(index, LowerBound(f.time.value).value, first)
    requires UpperBound(f.time.value).Some? ==> LastUpTo(index, UpperBound(f.time.value).value, last)
    ensures Keep(f, times, Listing(NarrowByTime(q, f.time.value, first, last), rows)) == Keep(f, times, Listing(q, rows))
  {
    hide FirstFrom, LastUpTo, Monotone, Select, Keep, InOrder, LowerBound, UpperBound;
    var narrow := NarrowByTime(q, f.time.value, first, last);
    forall item | Wanted(f, times, item) && InRange(q, item.slot) ensures InRange(narrow, item.slot) {
      TimeBoundsHold(index, f.time.value, first, last, times[item.slot].value, item.slot);
    }
    KeepSelect(InOrder(rows, q.desc), q, narrow, f, times);
  }
}
