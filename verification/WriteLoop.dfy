/**
 The writer's event loop (src/storage/write.rs).

 Stream verdicts, HTTP refetches and ordered pushes meet here. Between two
 events the loop promises that no slot is forgotten: every slot from the next
 one to push up to the last one the fork resolver reported is queued or being
 fetched, and the slot it waits for is being fetched.
 */
module WriteLoop {
  import opened Common
  import opened Memory
  import MemoryRuns

  /** A fetched or streamed slot: its block, or None for a skipped slot. */
  type Fetched = Option<Block>

  /** Messages to the readers, in the order they are sent, each with what is announced or stored for its slot. */
  datatype Sync = BlockConfirmed(slot: Slot, block: Fetched) | BlockPushed(slot: Slot, block: Fetched)

  /** Every push follows the confirmation of its own slot, and slots rise up to `below`. */
  ghost predicate Announced(log: seq<Sync>, below: Slot) {
    log == [] ||
    (var n := |log| - 2;
     && n >= 0
     && log[n].BlockConfirmed? && log[n + 1] == BlockPushed(log[n].slot, log[n].block)
     && log[n].slot < below
     && Announced(log[..n], log[n].slot))
  }

  lemma AnnounceKeeps(log: seq<Sync>, slot: Slot, block: Fetched)
    requires Announced(log, slot)
    ensures Announced(log + [BlockConfirmed(slot, block)] + [BlockPushed(slot, block)], slot + 1)
  {
    var longer := log + [BlockConfirmed(slot, block)] + [BlockPushed(slot, block)];
    assert longer[..|longer| - 2] == log;
  }

  /** A reader's `confirmed_in_process` after a log, or None when it would refuse a message. */
  ghost function ReaderState(log: seq<Sync>): Option<Option<Slot>> {
    if log == [] then Some(None)
    else
      var n := |log| - 1;
      match (ReaderState(log[..n]), log[n])
      case (None, _) => None
      case (Some(_), BlockConfirmed(slot, _)) => Some(Some(slot))
      case (Some(pending), BlockPushed(slot, _)) => if pending == Some(slot) then Some(None) else None
  }

  /** No reader ever refuses a message of the loop. */
  lemma {:induction false} ReadersAccept(log: seq<Sync>, below: Slot)
    requires Announced(log, below)
    ensures ReaderState(log) == Some(None)
    ensures forall i :: 0 <= i <= |log| ==> ReaderState(log[..i]).Some?
  {
    if log != [] {
      var n := |log| - 2;
      ReadersAccept(log[..n], log[n].slot);
      assert log[..n + 1][..n] == log[..n];
      assert ReaderState(log[..n + 1]) == Some(Some(log[n].slot));
      forall i | 0 <= i <= |log| ensures ReaderState(log[..i]).Some? {
        if i <= n {
          assert log[..i] == log[..n][..i];
        } else if i == |log| {
          assert log[..i] == log;
        }
      }
    }
  }

  /** Confirmations are announced in rising order, as all-reader publication needs. */
  lemma {:induction false} ConfirmationsRise(log: seq<Sync>, below: Slot)
    requires Announced(log, below)
    ensures forall i :: 0 <= i < |log| && log[i].BlockConfirmed? ==> log[i].slot < below
    ensures forall i, j :: 0 <= i < j < |log| && log[i].BlockConfirmed? && log[j].BlockConfirmed? ==> log[i].slot < log[j].slot
  {
    if log != [] {
      var n := |log| - 2;
      ConfirmationsRise(log[..n], log[n].slot);
      assert forall i :: 0 <= i < n ==> log[..n][i] == log[i];
      assert forall i :: n < i < |log| ==> log[i].BlockPushed?;
    }
  }

  ghost predicate Covered(next: Slot, last: Option<Slot>, queue: map<Slot, Fetched>, inFlight: set<Slot>) {
    last.Some? ==> forall s :: next <= s <= last.value ==> s in queue || s in inFlight
  }

  /**
   While backfilling, a requested slot that is not stored yet is queued or being
   fetched, except exactly for those that a catch-up dropped.
   */
  ghost predicate BackRequested(upto: Option<Slot>, nextBack: Option<Slot>, nextRequest: Option<Slot>,
                                backQueue: map<Slot, Fetched>, inFlight: set<Slot>, dropped: set<Slot>) {
    && (nextRequest.Some? ==> nextBack.Some?)
    && (upto.Some? ==>
          && upto.value > 0
          && (nextBack.Some? ==> upto.value <= nextBack.value)
          && (forall s :: s in dropped ==> nextRequest.Some? && nextRequest.value < s <= nextBack.value)
          && (nextRequest.Some? ==>
                && upto.value <= nextRequest.value + 1
                && forall s :: nextRequest.value < s <= nextBack.value ==>
                     (s in dropped <==> s !in backQueue && s !in inFlight)))
  }

  ghost predicate FrontPlaced(concurrency: nat, requests: seq<Slot>, inFlight: set<Slot>, log: seq<Sync>, last: Option<Slot>,
                              genNext: Slot, queue: map<Slot, Fetched>, at: Slot) {
    && concurrency > 0
    && Matching(requests, inFlight)
    && Announced(log, at)
    && (last.Some? ==> genNext == last.value + 1)
    && Covered(at, last, queue, inFlight)
  }

  ghost predicate RingPlaced(front: Option<Slot>, back: Option<Slot>, lowest: Option<Slot>) {
    (front.Some? <==> back.Some?) && (front.Some? ==> lowest.Some? && lowest.value <= back.value <= front.value)
  }

  /** The backfill works below the ring's front, and below everything stored if it started out so. */
  ghost predicate BackPlaced(nextBack: Option<Slot>, nextRequest: Option<Slot>, front: Option<Slot>, lowest: Option<Slot>,
                             clean: bool, at: Slot) {
    nextBack.Some? ==>
      && front.Some? && nextBack.value < front.value && nextBack.value < at
      && (nextRequest.Some? ==> nextRequest.value < front.value && nextRequest.value < at)
      && (clean ==> lowest.Some? && nextBack.value < lowest.value)
  }

  /** The backfill moves down by one slot, which may have been stored. */
  lemma BackMovesDown(slot: Slot, nextRequest: Option<Slot>, front: Option<Slot>, lowest: Option<Slot>, clean: bool, at: Slot)
    requires BackPlaced(Some(slot), nextRequest, front, lowest, clean, at) && slot > 0
    ensures BackPlaced(Some(slot - 1), nextRequest, front, lowest, clean, at)
    ensures BackPlaced(Some(slot - 1), nextRequest, front, Lower(lowest, slot), clean, at)
    ensures front.Some? && slot < front.value && (clean ==> lowest.Some? && slot < lowest.value)
  {
  }

  lemma NothingYet(at: Slot, queue: map<Slot, Fetched>, inFlight: set<Slot>)
    ensures Announced([], at) && Covered(at, None, queue, inFlight)
  {
  }

  lemma CoveredStep(at: Slot, last: Option<Slot>, queue: map<Slot, Fetched>, inFlight: set<Slot>)
    requires Covered(at, last, queue, inFlight)
    ensures Covered(at + 1, last, queue - {at}, inFlight)
  {
  }

  /** A finished request moves its slot from the set in flight to a queue, or drops a late one. */
  lemma Finished(at: Slot, last: Option<Slot>, queue: map<Slot, Fetched>, inFlight: set<Slot>, slot: Slot, block: Fetched)
    requires Covered(at, last, queue, inFlight)
    ensures Covered(at, last, if slot >= at then queue[slot := block] else queue, inFlight - {slot})
  {
  }

  lemma BackFinished(upto: Option<Slot>, nextBack: Option<Slot>, nextRequest: Option<Slot>,
                     backQueue: map<Slot, Fetched>, inFlight: set<Slot>, dropped: set<Slot>,
                     slot: Slot, block: Fetched, at: Slot)
    requires BackRequested(upto, nextBack, nextRequest, backQueue, inFlight, dropped) && slot in inFlight
    requires nextBack.Some? ==> nextBack.value < at
    ensures BackRequested(upto, nextBack, nextRequest,
                          if slot < at && nextBack.Some? && slot <= nextBack.value && upto.Some?
                          then backQueue[slot := block] else backQueue, inFlight - {slot}, dropped)
  {
  }

  /** Requests above the backfill, and their results, do not touch it. */
  lemma BackUntouched(upto: Option<Slot>, nextBack: Option<Slot>, nextRequest: Option<Slot>,
                      backQueue: map<Slot, Fetched>, inFlight: set<Slot>, dropped: set<Slot>, more: set<Slot>)
    requires BackRequested(upto, nextBack, nextRequest, backQueue, inFlight, dropped)
    requires nextBack.Some? ==> forall s :: s in more ==> nextBack.value < s
    ensures BackRequested(upto, nextBack, nextRequest, backQueue, inFlight + more, dropped)
  {
  }

  /** The queued slot `at` has been taken: the range above the next request shrinks by it. */
  lemma BackTaken(upto: Option<Slot>, at: Slot, nextRequest: Option<Slot>,
                  backQueue: map<Slot, Fetched>, inFlight: set<Slot>, dropped: set<Slot>)
    requires BackRequested(upto, Some(at), nextRequest, backQueue, inFlight, dropped) && at in backQueue
    requires upto.Some? && nextRequest.Some?
    ensures at > 0
    ensures at > upto.value ==> BackRequested(upto, Some(at - 1), nextRequest, backQueue - {at}, inFlight, dropped)
    ensures BackRequested(None, Some(at - 1), nextRequest, map[], inFlight, dropped) && upto.value <= at
  {
  }

  /** What a request that ends during a catch-up costs the backfill. */
  ghost function Lost(upto: Option<Slot>, nextBack: Option<Slot>, nextRequest: Option<Slot>,
                      backQueue: map<Slot, Fetched>, slot: Slot): set<Slot> {
    if InBackRange(upto, nextBack, nextRequest, backQueue, slot) then {slot} else {}
  }

  /** A backfill slot that has been requested and not yet queued. */
  ghost predicate InBackRange(upto: Option<Slot>, nextBack: Option<Slot>, nextRequest: Option<Slot>,
                              backQueue: map<Slot, Fetched>, slot: Slot) {
    upto.Some? && nextBack.Some? && nextRequest.Some? && nextRequest.value < slot <= nextBack.value && slot !in backQueue
  }

  /** The slots from `from` up to `to` have left the queue, and nothing else has changed in it. */
  ghost predicate Taken(from: Slot, to: Slot, before: map<Slot, Fetched>, after: map<Slot, Fetched>) {
    && (forall s :: from <= s < to ==> s in before)
    && (forall s :: s in after <==> s in before && !(from <= s < to))
    && (forall s :: s in after ==> after[s] == before[s])
  }

  lemma TakenStep(from: Slot, to: Slot, before: map<Slot, Fetched>, after: map<Slot, Fetched>)
    requires Taken(from, to, before, after) && from <= to && to in after
    ensures Taken(from, to + 1, before, after - {to})
  {
  }

  lemma TakenIsQueued(from: Slot, to: Slot, before: map<Slot, Fetched>, after: map<Slot, Fetched>)
    requires Taken(from, to, before, after)
    ensures forall s :: from <= s < to ==> s in before
    ensures forall s :: to <= s && s in before ==> s in after
  {
  }

  lemma PushesStep(from: Slot, to: Slot, queue: map<Slot, Fetched>)
    requires from <= to && forall s :: from <= s <= to ==> s in queue
    ensures Pushes(from, to + 1, queue)
            == Pushes(from, to, queue) + [BlockConfirmed(to, queue[to])] + [BlockPushed(to, queue[to])]
  {
  }

  /** What pushing the queued run from `from` up to `to` makes of the ring, the queue and the log. */
  ghost predicate Advanced(from: Slot, to: Slot, front0: Option<Slot>, front: Option<Slot>, back0: Option<Slot>, back: Option<Slot>,
                           queue0: map<Slot, Fetched>, queue: map<Slot, Fetched>, log0: seq<Sync>, log: seq<Sync>) {
    && from <= to && Taken(from, to, queue0, queue) && log == log0 + Pushes(from, to, queue0)
    && (from !in queue0 ==> to == from)
    && if from < to then front == Some(to - 1) else front == front0 && back == back0 && queue == queue0 && log == log0
  }

  lemma AdvancedNothing(from: Slot, front: Option<Slot>, back: Option<Slot>, queue: map<Slot, Fetched>, log: seq<Sync>)
    ensures Advanced(from, from, front, front, back, back, queue, queue, log, log)
  {
    assert log + [] == log;
  }

  lemma AdvancedStep(from: Slot, to: Slot, front0: Option<Slot>, front: Option<Slot>, back0: Option<Slot>, back: Option<Slot>,
                     back': Option<Slot>, queue0: map<Slot, Fetched>, queue: map<Slot, Fetched>, log0: seq<Sync>, log: seq<Sync>)
    requires Advanced(from, to, front0, front, back0, back, queue0, queue, log0, log) && to in queue
    ensures Advanced(from, to + 1, front0, Some(to), back0, back', queue0, queue - {to}, log0,
                     log + [BlockConfirmed(to, queue[to])] + [BlockPushed(to, queue[to])])
  {
    hide Pushes;
    TakenStep(from, to, queue0, queue);
    PushesStep(from, to, queue0);
  }

  lemma Advancing(from: Slot, to: Slot, front0: Option<Slot>, front: Option<Slot>, back0: Option<Slot>, back: Option<Slot>,
                  queue0: map<Slot, Fetched>, queue: map<Slot, Fetched>, log0: seq<Sync>, log: seq<Sync>)
    requires Advanced(from, to, front0, front, back0, back, queue0, queue, log0, log) && to !in queue
    ensures from <= to && Taken(from, to, queue0, queue) && log == log0 + Pushes(from, to, queue0)
    ensures if from !in queue0 then to == from else from < to
    ensures from < to ==> front == Some(to - 1)
    ensures from == to ==> front == front0 && back == back0 && queue == queue0 && log == log0
  {
    hide Pushes;
  }

  /** Everything queued or stored was given for its slot. */
  ghost predicate Sourced(given: set<(Slot, Fetched)>, queue: map<Slot, Fetched>, backQueue: map<Slot, Fetched>,
                          log: seq<Sync>, backLog: seq<(Slot, Fetched)>) {
    && (forall s :: s in queue ==> (s, queue[s]) in given)
    && (forall s :: s in backQueue ==> (s, backQueue[s]) in given)
    && (forall m :: m in log ==> (m.slot, m.block) in given)
    && (forall p :: p in backLog ==> p in given)
  }

  lemma SourcedTaken(given: set<(Slot, Fetched)>, queue0: map<Slot, Fetched>, queue: map<Slot, Fetched>,
                     backQueue: map<Slot, Fetched>, log: seq<Sync>, backLog: seq<(Slot, Fetched)>, from: Slot, to: Slot)
    requires Sourced(given, queue0, backQueue, log, backLog) && Taken(from, to, queue0, queue) && from <= to
    ensures Sourced(given, queue, backQueue, log + Pushes(from, to, queue0), backLog)
  {
    PushesAreQueued(from, to, queue0);
  }

  /** What is stored at the back, or dropped with the queue, was given. */
  lemma SourcedBack(given: set<(Slot, Fetched)>, queue: map<Slot, Fetched>, backQueue: map<Slot, Fetched>,
                    log: seq<Sync>, backLog: seq<(Slot, Fetched)>, slot: Slot)
    requires Sourced(given, queue, backQueue, log, backLog) && slot in backQueue
    ensures Sourced(given, queue, backQueue - {slot}, log, backLog) && Sourced(given, queue, map[], log, backLog)
    ensures Sourced(given, queue, backQueue - {slot}, log, backLog + [(slot, backQueue[slot])])
    ensures Sourced(given, queue, map[], log, backLog + [(slot, backQueue[slot])])
  {
  }

  lemma {:induction false} PushesAreQueued(from: Slot, to: Slot, queue: map<Slot, Fetched>)
    requires from <= to && forall s :: from <= s < to ==> s in queue
    ensures forall m :: m in Pushes(from, to, queue) ==> (m.slot in queue && m.block == queue[m.slot])
  {
    if from < to {
      PushesAreQueued(from, to - 1, queue);
    }
  }

  /**
   What draining the resolver makes of the queue: from the next slot on, a found
   block is queued for its slot, a dead slot is queued as skipped, and nothing
   else in the queue changes.
   */
  ghost predicate Accounted(next: Slot, verdicts: seq<Verdict>, queue0: map<Slot, Fetched>, queue: map<Slot, Fetched>) {
    && (forall s: Slot, b :: Found(s, b) in verdicts && s >= next ==> s in queue && queue[s] == Some(b))
    && (forall s: Slot :: Dead(s) in verdicts && s >= next ==> s in queue && queue[s] == None)
    && (forall s :: s in queue0 ==> s in queue)
    && (forall s :: s in queue ==> (s >= next && Reported(verdicts, s)) || (s in queue0 && queue[s] == queue0[s]))
  }

  /** The resolver found the slot's block or knows it was skipped. */
  ghost predicate Reported(verdicts: seq<Verdict>, slot: Slot) {
    exists v :: v in verdicts && v.slot == slot && !v.Missed?
  }

  /**
   What draining the resolver requests: every missed slot from the next one on,
   and those between the next slot and the first verdict that are not queued.
   */
  ghost predicate Requested(next: Slot, verdicts: seq<Verdict>, queue0: map<Slot, Fetched>, inFlight0: set<Slot>, inFlight: set<Slot>) {
    forall s: Slot :: s in inFlight <==>
      s in inFlight0 || (s >= next && (Missed(s) in verdicts || (verdicts != [] && s < verdicts[0].slot && s !in queue0)))
  }

  /** What the resolver gives for the slots it does not miss. */
  ghost function GivenBy(verdicts: seq<Verdict>): set<(Slot, Fetched)> {
    if verdicts == [] then {}
    else
      GivenBy(verdicts[..|verdicts| - 1]) + match verdicts[|verdicts| - 1]
                                            case Missed(_) => {}
                                            case Dead(slot) => {(slot, None)}
                                            case Found(slot, block) => {(slot, Some(block))}
  }

  function Lower(lowest: Option<Slot>, slot: Slot): Option<Slot> {
    if lowest.Some? && lowest.value < slot then lowest else Some(slot)
  }

  /** `dropped` grew by exactly the backfill requests that ended between the two sets in flight. */
  ghost predicate DroppedExactly(upto: Option<Slot>, nextBack: Option<Slot>, nextRequest: Option<Slot>,
                                 backQueue: map<Slot, Fetched>, inFlight0: set<Slot>, inFlight: set<Slot>,
                                 dropped0: set<Slot>, dropped: set<Slot>) {
    && (nextBack.Some? ==> forall s :: s in inFlight && s <= nextBack.value ==> s in inFlight0)
    && forall s :: s in dropped <==>
         s in dropped0 || (InBackRange(upto, nextBack, nextRequest, backQueue, s) && s in inFlight0 && s !in inFlight)
  }

  /** One more request ends, after requests above the backfill have been added. */
  lemma DroppedOneMore(upto: Option<Slot>, nextBack: Option<Slot>, nextRequest: Option<Slot>, backQueue: map<Slot, Fetched>,
                       inFlight0: set<Slot>, before: set<Slot>, more: set<Slot>, dropped0: set<Slot>, dropped: set<Slot>, slot: Slot)
    requires DroppedExactly(upto, nextBack, nextRequest, backQueue, inFlight0, before, dropped0, dropped)
    requires before <= more && slot in more
    requires nextBack.Some? ==> forall s :: s in more && s <= nextBack.value ==> s in before
    ensures DroppedExactly(upto, nextBack, nextRequest, backQueue, inFlight0, more - {slot}, dropped0,
                           dropped + Lost(upto, nextBack, nextRequest, backQueue, slot))
  {
  }

  lemma DroppedNothing(upto: Option<Slot>, nextBack: Option<Slot>, nextRequest: Option<Slot>, backQueue: map<Slot, Fetched>,
                       inFlight: set<Slot>, dropped: set<Slot>)
    ensures DroppedExactly(upto, nextBack, nextRequest, backQueue, inFlight, inFlight, dropped, dropped)
  {
  }

  /** Where a finished request goes. */
  datatype Place = ToFront | ToBack | Late

  function Route(slot: Slot, next: Slot, nextBack: Option<Slot>, upto: Option<Slot>): Place {
    if slot >= next then ToFront
    else if nextBack.Some? && slot <= nextBack.value && upto.Some? then ToBack
    else Late
  }

  /** One request per slot in progress. */
  ghost predicate Matching(requests: seq<Slot>, inFlight: set<Slot>) {
    && (forall s :: s in requests <==> s in inFlight)
    && (forall i, j :: 0 <= i < j < |requests| ==> requests[i] != requests[j])
  }

  /** The request at `i` ends. */
  function RemoveAt(requests: seq<Slot>, i: nat): (r: seq<Slot>)
    requires i < |requests|
    ensures |r| == |requests| - 1
  {
    requests[..i] + requests[i + 1..]
  }

  lemma MatchingWithout(requests: seq<Slot>, inFlight: set<Slot>, i: nat)
    requires Matching(requests, inFlight) && i < |requests|
    ensures Matching(RemoveAt(requests, i), inFlight - {requests[i]})
  {
    var rest := RemoveAt(requests, i);
    assert forall k :: 0 <= k < |rest| ==> rest[k] == requests[if k < i then k else k + 1];
    forall s ensures s in rest <==> s in inFlight - {requests[i]} {
      if s in inFlight && s != requests[i] {
        var k :| 0 <= k < |requests| && requests[k] == s;
        assert rest[if k < i then k else k - 1] == s;
      }
    }
  }

  /** What the readers are told about the queued slots from `from` up to `to`. */
  ghost function Pushes(from: Slot, to: Slot, queue: map<Slot, Fetched>): seq<Sync>
    requires from <= to && forall s :: from <= s < to ==> s in queue
  {
    if from == to then []
    else Pushes(from, to - 1, queue) + [BlockConfirmed(to - 1, queue[to - 1])] + [BlockPushed(to - 1, queue[to - 1])]
  }

  /**
   One turn of the catch-up loop: perhaps a fresh view of the node's slot, then
   what a request returns: that of slot `ends` if it is in flight, else any.
   */
  datatype Turn = Turn(refresh: Option<Slot>, ends: Slot, block: Fetched)

  /** The node's slot as last seen when turn `i` of a catch-up begins. */
  ghost function NodeAt(loaded: Slot, turns: seq<Turn>, i: nat): Slot
    requires i < |turns|
  {
    if turns[i].refresh.Some? then turns[i].refresh.value
    else if i == 0 then loaded else NodeAt(loaded, turns, i - 1)
  }

  /** What has been given besides came with one of the turns. */
  ghost predicate GivenBesides(given0: set<(Slot, Fetched)>, given: set<(Slot, Fetched)>, turns: seq<Turn>) {
    given0 <= given && forall p :: p in given ==> p in given0 || CameWith(turns, p.1)
  }

  ghost predicate CameWith(turns: seq<Turn>, block: Fetched) {
    exists i :: 0 <= i < |turns| && turns[i].block == block
  }

  lemma GivenNothing(given: set<(Slot, Fetched)>, turns: seq<Turn>)
    ensures GivenBesides(given, given, turns)
  {
  }

  lemma GivenOneMore(given0: set<(Slot, Fetched)>, given: set<(Slot, Fetched)>, turns: seq<Turn>, i: nat, slot: Slot)
    requires GivenBesides(given0, given, turns) && i < |turns|
    ensures GivenBesides(given0, given + {(slot, turns[i].block)}, turns)
  {
    assert CameWith(turns, turns[i].block);
  }

  datatype CatchUpResult = CaughtUp | Outdated | Unfinished

  class Loop {
    const concurrency: nat
    var next: Slot                       // next_confirmed_slot
    var queue: map<Slot, Fetched>        // queued_slots_front
    var inFlight: set<Slot>              // HttpBlocks::inprogress
    var requests: seq<Slot>              // HttpBlocks::requests, by slot
    var memory: State                    // storage_memory
    var front: Option<Slot>              // newest slot of the ring
    var back: Option<Slot>               // oldest slot of the ring
    var log: seq<Sync>
    var backLog: seq<(Slot, Fetched)>    // what was stored at the back of the ring, in order
    var backfillUpto: Option<Slot>
    var nextBack: Option<Slot>           // next_back_slot
    var nextRequest: Option<Slot>        // next_back_request_slot; None is Slot::MAX
    var backQueue: map<Slot, Fetched>
    ghost var started: bool              // a Start or a catch-up has been handled
    ghost var last: Option<Slot>         // last slot popped from memory since the last Start
    ghost var lowest: Option<Slot>       // no slot below was ever stored; None before any was
    ghost var dropped: set<Slot>         // backfill slots fetched during a catch-up and thrown away
    ghost var given: set<(Slot, Fetched)> // what the resolver or a finished request has given for a slot
    ghost var clean: bool                // no slot below the ring had been stored when backfilling chose its first slot

    ghost predicate RingBooks()
      reads this`front, this`back, this`lowest
    {
      RingPlaced(front, back, lowest)
    }

    /** Facts that hold throughout; `at` is the next slot to push. */
    ghost predicate Books(at: Slot)
      reads this
    {
      FrontBooks(at) && RingBooks()
    }

    /** The requests, the log, and what waits for the front of the ring. */
    ghost predicate FrontBooks(at: Slot)
      reads this`requests, this`inFlight, this`log, this`last, this`memory, this`queue
    {
      FrontPlaced(concurrency, requests, inFlight, log, last, memory.genNext, queue, at)
    }

    /** What waits for the back of the ring: nothing requested is forgotten either. */
    ghost predicate BackBooks(at: Slot)
      reads this
    {
      && BackPlaced(nextBack, nextRequest, front, lowest, clean, at)
      && BackRequested(backfillUpto, nextBack, nextRequest, backQueue, inFlight, dropped)
    }

    ghost predicate Valid()
      reads this
    {
      && Inv(memory) && Books(next) && BackBooks(next)
      && (started && front.Some? ==> next == front.value + 1)
      && (!started ==> queue == map[] && log == [] && last.None? && inFlight == {} && nextBack.None?)
      && (memory.confirmed > 0 ==> memory.genNext == memory.confirmed + 1)
      && next !in queue
      && Sourced(given, queue, backQueue, log, backLog)
    }

    /**
     `loaded` gives the oldest and newest slots read from disk, which the readers
     were initialised with, `ring` those left after the pops at startup, and
     `confirmed` what the RPC node reports.
     */
    constructor (loaded: Option<(Slot, Slot)>, ring: Option<(Slot, Slot)>, confirmed: Slot, upto: Option<Slot>, concurrency: nat)
      requires concurrency > 0 && (upto.Some? ==> upto.value > 0)
      requires ring.Some? ==> loaded.Some? && loaded.value.0 <= ring.value.0 <= ring.value.1 <= loaded.value.1
      ensures Valid() && next == confirmed && !started && inFlight == {} && requests == [] && queue == map[] && backQueue == map[]
      ensures dropped == {} && nextBack.None? && nextRequest.None? && backfillUpto == upto && this.concurrency == concurrency
      ensures back == (if ring.Some? then Some(ring.value.0) else None)
      ensures front == (if ring.Some? then Some(ring.value.1) else None)
      ensures lowest == if loaded.Some? then Some(loaded.value.0) else None
      ensures given == {} && log == [] && backLog == [] && memory == Empty
    {
      this.concurrency := concurrency;
      next, queue, inFlight, requests, memory := confirmed, map[], {}, [], Empty;
      front := if ring.Some? then Some(ring.value.1) else None;
      back := if ring.Some? then Some(ring.value.0) else None;
      log, backfillUpto, nextBack, nextRequest, backQueue := [], upto, None, None, map[];
      started, last, clean, dropped, given, backLog := false, None, true, {}, {}, [];
      lowest := if loaded.Some? then Some(loaded.value.0) else None;
    }

    /** `HttpBlocks::fetch`: a slot in progress is not requested again, so there is one request per slot. */
    method Fetch(slot: Slot)
      requires Matching(requests, inFlight)
      modifies this`inFlight, this`requests
      ensures Matching(requests, inFlight) && inFlight == old(inFlight) + {slot}
      ensures requests == if slot in old(inFlight) then old(requests) else old(requests) + [slot]
    {
      if slot in inFlight {
        assert inFlight + {slot} == inFlight;
        return;
      }
      inFlight := inFlight + {slot};
      requests := requests + [slot];
    }

    /** `HttpBlocks::poll_next`: some request ends and its slot may be requested again. */
    method Complete(slot: Slot)
      requires Matching(requests, inFlight) && slot in inFlight
      modifies this`inFlight, this`requests
      ensures Matching(requests, inFlight) && inFlight == old(inFlight) - {slot}
      ensures |requests| == |old(requests)| - 1
    {
      var i :| 0 <= i < |requests| && requests[i] == slot;
      MatchingWithout(requests, inFlight, i);
      requests := RemoveAt(requests, i);
      inFlight := inFlight - {slot};
    }

    predicate IsFull()
      reads this`requests
    {
      |requests| >= concurrency
    }

    /**
     `push_block_front`. Its contiguity check is the precondition, so every call
     below shows that the check never fires. Evictions may raise `back`.
     */
    method PushFront(slot: Slot)
      requires RingBooks() && (front.Some? ==> slot == front.value + 1)
      modifies this`front, this`back, this`lowest
      ensures RingBooks() && front == Some(slot)
      ensures lowest == Lower(old(lowest), slot)
    {
      lowest := Lower(lowest, slot);
      var oldest := if back.Some? then back.value else slot;
      var newBack :| oldest <= newBack <= slot;
      front, back := Some(slot), Some(newBack);
    }

    /** Announce and push the queued slot `at`. */
    method PushOne(at: Slot)
      requires Books(at) && BackBooks(at) && at in queue
      requires front.Some? ==> at == front.value + 1
      modifies this`queue, this`front, this`back, this`log, this`lowest
      ensures Books(at + 1) && BackBooks(at + 1)
      ensures queue == old(queue) - {at} && |queue| < |old(queue)| && front == Some(at)
      ensures log == old(log) + [BlockConfirmed(at, old(queue)[at])] + [BlockPushed(at, old(queue)[at])]
    {
      hide Announced, Covered, BackRequested;
      var block := queue[at];
      AnnounceKeeps(log, at, block);
      CoveredStep(at, last, queue, inFlight);
      assert (queue - {at}).Keys == queue.Keys - {at};
      queue := queue - {at};
      log := log + [BlockConfirmed(at, block)];
      PushFront(at);
      log := log + [BlockPushed(at, block)];
    }

    /** Push from `from` on while the slot is queued. */
    method PushQueued(from: Slot) returns (to: Slot)
      requires Books(from) && BackBooks(from)
      requires front.Some? && from in queue ==> from == front.value + 1
      modifies this`queue, this`front, this`back, this`log, this`lowest
      ensures Books(to) && BackBooks(to)
      ensures to !in queue && from <= to
      ensures if old(from !in queue) then to == from else from < to
      ensures from < to ==> front == Some(to - 1)
      ensures from == to ==> front == old(front) && back == old(back) && queue == old(queue) && log == old(log)
      // exactly the queued run from `from` on is pushed, each slot announced first; the rest stays queued
      ensures Taken(from, to, old(queue), queue)
      ensures log == old(log) + Pushes(from, to, old(queue))
    {
      hide Books, BackBooks, Advanced;
      AdvancedNothing(from, front, back, queue, log);
      to := from;
      while to in queue
        invariant Books(to) && BackBooks(to)
        invariant front.Some? && to in queue ==> to == front.value + 1
        invariant Advanced(from, to, old(front), front, old(back), back, old(queue), queue, old(log), log)
        decreases |queue|
      {
        ghost var front1, back1, queue1, log1 := front, back, queue, log;
        PushOne(to);
        AdvancedStep(from, to, old(front), front1, old(back), back1, back, old(queue), queue1, old(log), log1);
        to := to + 1;
      }
      Advancing(from, to, old(front), front, old(back), back, old(queue), queue, old(log), log);
    }

    /** A finished HTTP request: its slot is free again, and its result waits for the front, for the back, or is too late. */
    method TakeResult(slot: Slot, block: Fetched)
      requires Books(next) && BackBooks(next) && slot in inFlight
      modifies this`queue, this`backQueue, this`inFlight, this`requests
      ensures Books(next) && BackBooks(next) && inFlight == old(inFlight) - {slot}
      ensures queue == if slot >= next then old(queue)[slot := block] else old(queue)
      ensures backQueue == if slot < next && nextBack.Some? && slot <= nextBack.value && backfillUpto.Some? then old(backQueue)[slot := block]
                           else old(backQueue)
    {
      hide Announced, BackRequested, Covered, Matching;
      Finished(next, last, queue, inFlight, slot, block);
      BackFinished(backfillUpto, nextBack, nextRequest, backQueue, inFlight, dropped, slot, block, next);
      Complete(slot);
      match Route(slot, next, nextBack, backfillUpto) {
        case ToFront => queue := queue[slot := block];
        case ToBack => backQueue := backQueue[slot := block];
        case Late =>
      }
    }

    /** The turn after a finished HTTP request. */
    method OnHttp(slot: Slot, block: Fetched)
      requires Valid() && slot in inFlight
      modifies this`next, this`queue, this`backQueue, this`inFlight, this`requests, this`front, this`back, this`log,
               this`lowest, this`given
      ensures Valid() && old(next) <= next
      ensures inFlight == old(inFlight) - {slot}
      ensures var queued := if slot >= old(next) then old(queue)[slot := block]
                            else old(queue);
              Taken(old(next), next, queued, queue)
      ensures backQueue == if slot < old(next) && nextBack.Some? && slot <= nextBack.value && backfillUpto.Some? then old(backQueue)[slot := block]
                           else old(backQueue)
      // the pushed slots carry what was queued for them
      ensures var queued := if slot >= old(next) then old(queue)[slot := block]
                            else old(queue);
              forall s :: old(next) <= s < next ==> s in queued
      ensures var queued := if slot >= old(next) then old(queue)[slot := block]
                            else old(queue);
              log == old(log) + Pushes(old(next), next, queued)
      ensures given == old(given) + {(slot, block)}
      // the slot the loop waits for is being fetched
      ensures last.Some? && next <= last.value ==> next in inFlight
    {
      hide Inv, Books, BackBooks, Pushes, Taken, Sourced;
      Given(slot, block);
      GiveResult(slot, block);
      TakeResult(slot, block);
      PushNext();
    }

    /** Push what is ready from the next slot on. */
    method PushNext()
      requires Books(next) && BackBooks(next) && Sourced(given, queue, backQueue, log, backLog)
      requires front.Some? && next in queue ==> next == front.value + 1
      modifies this`next, this`queue, this`front, this`back, this`log, this`lowest
      ensures Books(next) && BackBooks(next) && Sourced(given, queue, backQueue, log, backLog)
      ensures next !in queue && old(next) <= next
      ensures front == if old(next) < next then Some(next - 1) else old(front)
      ensures Taken(old(next), next, old(queue), queue) && forall s :: old(next) <= s < next ==> s in old(queue)
      ensures log == old(log) + Pushes(old(next), next, old(queue))
      // every slot up to the last one reported is queued or in flight
      ensures last.Some? ==> forall s :: next <= s <= last.value ==> s in queue || s in inFlight
      ensures last.Some? && next <= last.value ==> next in inFlight
    {
      hide Inv, FrontBooks, RingBooks, BackRequested, Pushes, Taken, Sourced;
      next := PushQueued(next);
      SourcedTaken(given, old(queue), queue, backQueue, old(log), backLog, old(next), next);
      TakenIsQueued(old(next), next, old(queue), queue);
      NoneForgotten();
    }

    ghost method GiveResult(slot: Slot, block: Fetched)
      requires Books(next) && BackBooks(next)
      modifies this`given
      ensures Books(next) && BackBooks(next) && given == old(given) + {(slot, block)}
    {
      hide FrontBooks, RingBooks, BackRequested;
      given := given + {(slot, block)};
    }

    /** A result given for a slot may be queued for it. */
    lemma Given(slot: Slot, block: Fetched)
      requires Sourced(given, queue, backQueue, log, backLog)
      ensures var more := given + {(slot, block)};
              && Sourced(more, queue, backQueue, log, backLog) && Sourced(more, queue[slot := block], backQueue, log, backLog)
              && Sourced(more, queue, backQueue[slot := block], log, backLog)
    {
    }

    /** Every slot up to the last one reported is queued or in flight. */
    lemma NoneForgotten()
      requires Books(next) && next !in queue
      ensures last.Some? ==> forall s :: next <= s <= last.value ==> s in queue || s in inFlight
      ensures last.Some? && next <= last.value ==> next in inFlight
    {
      hide Announced;
    }

    /** `Start`: a new stream; the resolver starts over and the loop resumes after the ring. */
    method OnStart()
      requires Valid()
      modifies this`memory, this`last, this`next, this`started
      ensures Valid() && started && last.None? && memory == Empty
      ensures if front.Some? then next == front.value + 1 else next == old(next)
    {
      hide Inv, BackRequested, Matching, Announced, Covered, Sourced;
      EmptyInv();
      NothingYet(next, queue, inFlight);
      memory, last := Empty, None;
      if front.Some? {
        NothingYet(front.value + 1, queue, inFlight);
        next := front.value + 1;
      }
      started := true;
    }

    /**
     `CatchupRequired`: fetch and push from the ring's front up to two slots
     below the node's, then resume there. The wait for a request never hangs,
     since one is always in flight. A backfill request that ends meanwhile is
     thrown away, and `dropped` remembers it.
     */
    method CatchUp(loaded: Slot, turns: seq<Turn>) returns (result: CatchUpResult, ghost ended: nat)
      requires Valid()
      modifies this`next, this`queue, this`inFlight, this`requests, this`front, this`back, this`log,
               this`started, this`dropped, this`lowest, this`given
      ensures result == CaughtUp ==> Valid() && started == (old(started) || old(front).Some?)
      ensures result == CaughtUp && old(front).Some? ==> front.Some? && next == front.value + 1
      // it ends at the first turn at which the ring is at most two slots behind the node
      ensures result == CaughtUp && old(front).Some? ==> ended < |turns| && next + 2 >= NodeAt(loaded, turns, ended)
      ensures result == Unfinished ==> ended == |turns|
      // what is queued or stored was given before or by a request that ended meanwhile
      ensures Sourced(given, queue, backQueue, log, backLog)
      ensures GivenBesides(old(given), given, turns)
      // exactly the backfill requests that end meanwhile are dropped
      ensures DroppedExactly(backfillUpto, nextBack, nextRequest, backQueue, old(inFlight), inFlight, old(dropped), dropped)
      ensures result == Outdated <==> old(front).Some? && loaded <= old(front).value
      // a request below the ring that ends in the first turn is not made again
      ensures (&& old(front).Some? && |turns| > 0 && turns[0].refresh.None? && old(front).value + 3 < loaded
               && turns[0].ends in old(inFlight) && turns[0].ends <= old(front).value) ==> turns[0].ends !in inFlight
      ensures result == Unfinished ==> front.Some? && Books(front.value + 1) && BackBooks(front.value + 1)
    {
      hide Inv, Announced, Covered, BackRequested, Valid, Books, BackBooks, DroppedExactly, Lost, Pushes, InBackRange, Sourced, GivenBesides, TakenFrom, CatchingUp;
      SourcedNow();
      GivenNothing(given, turns);
      DroppedNothing(backfillUpto, nextBack, nextRequest, backQueue, inFlight, dropped);
      ended := 0;
      if front.None? {
        return CaughtUp, 0;
      }
      var node := loaded;
      var request: Slot, database: Slot := front.value + 1, front.value + 1;
      if node < database {
        return Outdated, 0;
      }
      EnterCatchUp();
      for turn := 0 to |turns|
        invariant CatchingUp(request, database) && database !in queue
        invariant old(front).value < request && (turn == 0 ==> node == loaded && database == old(front).value + 1)
        invariant turn > 0 && turns[0].ends in old(inFlight) && turns[0].ends <= old(front).value ==>
                    turns[0].ends !in inFlight
        invariant turn == 0 ==> inFlight == old(inFlight)
        invariant turn > 0 ==> node == NodeAt(loaded, turns, turn - 1)
        invariant Sourced(given, queue, backQueue, log, backLog) && GivenBesides(old(given), given, turns)
        invariant DroppedExactly(backfillUpto, nextBack, nextRequest, backQueue, old(inFlight), inFlight, old(dropped), dropped)
        modifies this`next, this`queue, this`inFlight, this`requests, this`dropped, this`front, this`back, this`log, this`lowest, this`given
      {
        if turns[turn].refresh.Some? {
          node := turns[turn].refresh.value;
        }
        if database + 2 >= node {
          LeaveCatchUp(request, database);
          return CaughtUp, turn;
        }
        ghost var slot, given1 := 0, given;
        request, database, slot := CatchUpTurn(request, database, node, turns[turn], old(inFlight), old(dropped));
        GivenOneMore(old(given), given1, turns, turn, slot);
      }
      StillCatchingUp(request, database);
      return Unfinished, |turns|;
    }

    /** Request up to the node's slot, wait for a request, push what is ready. */
    method CatchUpTurn(from: Slot, at: Slot, node: Slot, turn: Turn, ghost inFlight0: set<Slot>, ghost dropped0: set<Slot>)
      returns (request: Slot, database: Slot, ghost ended: Slot)
      requires CatchingUp(from, at) && at !in queue && at < node
      requires Sourced(given, queue, backQueue, log, backLog)
      requires DroppedExactly(backfillUpto, nextBack, nextRequest, backQueue, inFlight0, inFlight, dropped0, dropped)
      modifies this`queue, this`inFlight, this`requests, this`dropped, this`front, this`back, this`log, this`lowest, this`given
      ensures CatchingUp(request, database) && database !in queue
      // the result of the request that ends is queued unless its slot has been pushed, and the queued run is pushed
      ensures (turn.ends in old(inFlight) ==> ended == turn.ends) && given == old(given) + {(ended, turn.block)}
      ensures at <= database && TakenFrom(at, database, ended, turn.block, old(queue), queue, old(log), log)
      ensures Sourced(given, queue, backQueue, log, backLog)
      ensures DroppedExactly(backfillUpto, nextBack, nextRequest, backQueue, inFlight0, inFlight, dropped0, dropped)
      // one request per slot up to the node's is made while there is room, and one ends
      ensures UpTo(from, request, node, old(inFlight), inFlight + {ended}) && ended !in inFlight
      ensures turn.ends in old(inFlight) && turn.ends < from ==> turn.ends !in inFlight
    {
      hide Announced, Covered, BackRequested, Books, BackBooks, DroppedExactly, Lost, Pushes, InBackRange, Sourced, Taken;
      ghost var before := inFlight;
      request := RequestUpTo(from, node, at);
      var slot :| slot in inFlight && (turn.ends in inFlight ==> slot == turn.ends);
      ended := slot;
      DroppedOneMore(backfillUpto, nextBack, nextRequest, backQueue, inFlight0, before, inFlight, dropped0, dropped, slot);
      Given(slot, turn.block);
      FinishDuringCatchUp(slot, turn.block, request, at);
      ghost var queued, log1 := queue, log;
      database := PushQueued(at);
      SourcedTaken(given, queued, queue, backQueue, log1, backLog, at, database);
      TakenIsQueued(at, database, queued, queue);
    }

    lemma StillCatchingUp(request: Slot, database: Slot)
      requires CatchingUp(request, database)
      ensures front == Some(database - 1) && Books(database) && BackBooks(database)
    {
    }

    lemma SourcedNow()
      requires Valid()
      ensures Sourced(given, queue, backQueue, log, backLog)
    {
    }

    /** The result for `ended`, if it is not too late, is queued, and the run from `from` up to `to` leaves the queue and is pushed. */
    static ghost predicate TakenFrom(from: Slot, to: Slot, ended: Slot, block: Fetched, queue0: map<Slot, Fetched>,
                                     queue: map<Slot, Fetched>, log0: seq<Sync>, log: seq<Sync>)
      requires from <= to
    {
      var queued := if ended >= from then queue0[ended := block] else queue0;
      && (forall s :: from <= s < to ==> s in queued)
      && Taken(from, to, queued, queue) && log == log0 + Pushes(from, to, queued)
    }

    ghost method EnterCatchUp()
      requires Valid() && front.Some?
      modifies this`started
      ensures var database := front.value + 1; CatchingUp(database, database) && database !in queue
      ensures started && Inv(memory) && (memory.confirmed > 0 ==> memory.genNext == memory.confirmed + 1)
    {
      hide Inv, Announced, Covered, BackRequested;
      NothingYet(front.value + 1, queue, inFlight);
      started := true;
    }

    method LeaveCatchUp(ghost request: Slot, database: Slot)
      requires CatchingUp(request, database) && database !in queue && started && Inv(memory)
      requires memory.confirmed > 0 ==> memory.genNext == memory.confirmed + 1
      requires Sourced(given, queue, backQueue, log, backLog)
      modifies this`next
      ensures Valid() && next == database && front == Some(next - 1)
    {
      hide Inv, Announced, Covered, BackRequested, Sourced;
      next := database;
    }

    /** Between two turns of a catch-up, every slot already requested is pushed, queued or in flight. */
    ghost predicate CatchingUp(request: Slot, database: Slot)
      reads this
    {
      && Books(database) && BackBooks(database)
      && database > 0 && front == Some(database - 1)
      && (nextBack.Some? ==> nextBack.value < request)
      && forall s :: database <= s < request ==> s in queue || s in inFlight
    }

    method RequestUpTo(from: Slot, node: Slot, database: Slot) returns (request: Slot)
      requires CatchingUp(from, database) && database !in queue && database < node
      modifies this`inFlight, this`requests
      ensures CatchingUp(request, database) && inFlight != {}
      ensures nextBack.Some? ==> forall s :: s in inFlight && s <= nextBack.value ==> s in old(inFlight)
      // as many as there is room for, up to the node's slot
      ensures UpTo(from, request, node, old(inFlight), inFlight) && (node < request || |requests| >= concurrency)
      ensures |requests| <= |old(requests)| || |requests| <= concurrency
    {
      hide Announced, BackRequested;
      request := from;
      while request <= node && !IsFull()
        invariant CatchingUp(request, database)
        invariant UpTo(from, request, node, old(inFlight), inFlight)
        invariant |requests| <= |old(requests)| || |requests| <= concurrency
        invariant nextBack.Some? ==> forall s :: s in inFlight && s <= nextBack.value ==> s in old(inFlight)
        decreases node + 1 - request
      {
        BackUntouched(backfillUpto, nextBack, nextRequest, backQueue, inFlight, dropped, {request});
        Fetch(request);
        request := request + 1;
      }
      if requests != [] {
        assert requests[0] in requests;
      }
    }

    /** Exactly the slots from `from` up to `request`, none above the node's, have been requested besides. */
    static ghost predicate UpTo(from: Slot, request: Slot, node: Slot, inFlight0: set<Slot>, inFlight: set<Slot>) {
      && from <= request && (from < request ==> request <= node + 1)
      && forall s :: s in inFlight <==> s in inFlight0 || from <= s < request
    }

    /** A request that ends during a catch-up: kept for the front, thrown away below it. */
    method FinishDuringCatchUp(slot: Slot, block: Fetched, request: Slot, database: Slot)
      requires CatchingUp(request, database) && database !in queue && slot in inFlight
      modifies this`queue, this`inFlight, this`requests, this`dropped, this`given
      ensures CatchingUp(request, database) && inFlight == old(inFlight) - {slot}
      ensures queue == (if slot >= database then old(queue)[slot := block] else old(queue)) && given == old(given) + {(slot, block)}
      ensures dropped == old(dropped) + Lost(backfillUpto, nextBack, nextRequest, backQueue, slot)
    {
      hide Announced, Matching;
      Finished(database, last, queue, inFlight, slot, block);
      dropped := dropped + Lost(backfillUpto, nextBack, nextRequest, backQueue, slot);
      given := given + {(slot, block)};
      Complete(slot);
      if slot >= database {
        queue := queue[slot := block];
      }
    }

    /**
     The backfill part of a turn. No request is in flight before the stream has
     sent its first message, `Start` or `CatchupRequired`, so with a ring the
     loop has started. `added` is whether `push_block_back` found room.
     Slots reach the back of the ring one below the other, and a slot that was
     dropped is never passed: backfilling stops above it.
     */
    method Backfill(added: bool)
      requires Valid() && (started || back.None?)
      modifies this`backfillUpto, this`nextBack, this`nextRequest, this`backQueue, this`inFlight,
               this`requests, this`back, this`backLog, this`lowest, this`clean
      ensures Valid()
      ensures back == old(back) || (back.Some? && old(back).Some? && back.value == old(back).value - 1)
      ensures Stores(old(back), back, old(backQueue), old(backLog), backLog)
      // the queued slot is stored exactly if it adjoins the ring and there was room; otherwise backfilling ends
      ensures old(backfillUpto.Some? && nextBack.Some?) ==> TookBack(added, old(nextBack).value, old(backQueue),
                old(back), back, nextBack, old(backfillUpto).value, backfillUpto)
      ensures old(backfillUpto.Some? && nextBack.Some? && nextRequest.None? && requests == []) ==>
                old(nextBack).value in inFlight && nextRequest.Some? && nextRequest.value < old(nextBack).value
      ensures old(nextBack.Some? ==> nextBack.value !in backQueue) ==> backQueue == old(backQueue)
      ensures old(backfillUpto.None? || nextBack.None?) ==>
                inFlight == old(inFlight) && requests == old(requests) && nextRequest == old(nextRequest)
      ensures back != old(back) && clean ==> old(lowest).Some? && back.value < old(lowest).value
      ensures backfillUpto == old(backfillUpto) || backfillUpto.None?
      // the first slot to fetch lies below the ring; `backfill_upto` itself is not fetched if it adjoins the ring
      ensures old(backfillUpto.Some? && nextBack.None? && back.Some? && back.value > 0) ==>
                if old(back).value > old(backfillUpto).value + 1
                then nextBack == Some(old(back).value - 1) && backfillUpto == old(backfillUpto)
                else backfillUpto.None? && inFlight == old(inFlight)
      ensures backfillUpto.Some? && old(backfillUpto).Some? ==>
                forall s :: s in dropped ==> nextBack.Some? && s <= nextBack.value
    {
      hide Inv, Announced, Covered, Valid, BackRequested;
      if backfillUpto.Some? && nextBack.Some? {
        RequestBelow();
        TakeBack(added);
        DroppedAbove();
      } else {
        ChooseBack();
      }
    }

    lemma DroppedAbove()
      requires Valid()
      ensures backfillUpto.Some? ==> forall s :: s in dropped ==> nextBack.Some? && s <= nextBack.value
    {
    }

    /** A new back of the ring is stored with what was queued for it, and nothing else is stored. */
    static ghost predicate Stores(back0: Option<Slot>, back: Option<Slot>, queued: map<Slot, Fetched>,
                                  log0: seq<(Slot, Fetched)>, log: seq<(Slot, Fetched)>) {
      if back == back0 then log == log0
      else back.Some? && back.value in queued && log == log0 + [(back.value, queued[back.value])]
    }

    /** What becomes of the slot waited for at the back. */
    static ghost predicate TookBack(added: bool, slot: Slot, queued: map<Slot, Fetched>, back0: Option<Slot>, back1: Option<Slot>,
                                    nextBack1: Option<Slot>, upto0: Slot, upto1: Option<Slot>) {
      if slot !in queued then back1 == back0 && nextBack1 == Some(slot) && upto1 == Some(upto0)
      else
        var stored := added && back0 == Some(slot + 1);
        && slot > 0 && nextBack1 == Some(slot - 1)
        && back1 == (if stored then Some(slot) else back0)
        && upto1 == if stored && slot != upto0 then Some(upto0) else None
    }

    /** The queued slot below the ring, if it has arrived, becomes the new back. */
    method TakeBack(added: bool)
      requires Valid() && (started || back.None?) && backfillUpto.Some? && nextBack.Some? && nextRequest.Some?
      modifies this`backfillUpto, this`nextBack, this`backQueue, this`back, this`backLog, this`lowest
      ensures Stores(old(back), back, old(backQueue), old(backLog), backLog)
      ensures Valid()
      ensures TookBack(added, old(nextBack).value, old(backQueue), old(back), back, nextBack, old(backfillUpto).value, backfillUpto)
      ensures old(nextBack.value !in backQueue) ==> backQueue == old(backQueue)
      ensures back != old(back) && clean ==> old(lowest).Some? && back.value < old(lowest).value
    {
      hide Inv, RingPlaced, FrontPlaced, BackPlaced, BackRequested, Sourced;
      if nextBack.value in backQueue {
        var slot, block := nextBack.value, backQueue[nextBack.value];
        SourcedBack(given, queue, backQueue, log, backLog, slot);
        TakeFromBack(slot);
        var stored := StoreBack(slot, block, added);
        if !stored || slot == backfillUpto.value {
          backfillUpto, backQueue := None, map[];
        }
      }
    }

    /** The slot leaves the queue; from now on the backfill waits for the one below, if it goes on. */
    method TakeFromBack(slot: Slot)
      requires nextBack == Some(slot) && slot in backQueue && nextRequest.Some? && backfillUpto.Some? && BackBooks(next)
      modifies this`nextBack, this`backQueue
      ensures slot > 0 && nextBack == Some(slot - 1) && backQueue == old(backQueue) - {slot}
      ensures front.Some? && slot < front.value && (clean ==> lowest.Some? && slot < lowest.value)
      ensures BackPlaced(nextBack, nextRequest, front, lowest, clean, next)
      ensures BackPlaced(nextBack, nextRequest, front, Lower(lowest, slot), clean, next)
      ensures slot > backfillUpto.value ==> BackRequested(backfillUpto, nextBack, nextRequest, backQueue, inFlight, dropped)
      ensures BackRequested(None, nextBack, nextRequest, map[], inFlight, dropped) && backfillUpto.value <= slot
    {
      hide BackPlaced, BackRequested;
      BackTaken(backfillUpto, slot, nextRequest, backQueue, inFlight, dropped);
      BackMovesDown(slot, nextRequest, front, lowest, clean, next);
      backQueue := backQueue - {slot};
      nextBack := Some(slot - 1);
    }

    /** `push_block_back` of the slot below the ring; any other slot is left out. */
    method StoreBack(slot: Slot, block: Fetched, added: bool) returns (stored: bool)
      requires RingBooks() && front.Some? && slot < front.value
      modifies this`back, this`backLog, this`lowest
      ensures backLog == if stored then old(backLog) + [(slot, block)] else old(backLog)
      ensures RingBooks() && stored == (added && old(back) == Some(slot + 1))
      ensures back == (if stored then Some(slot) else old(back))
      ensures lowest == if stored then Lower(old(lowest), slot) else old(lowest)
    {
      stored := added && back.value == slot + 1;
      if stored {
        back, lowest, backLog := Some(slot), Lower(lowest, slot), backLog + [(slot, block)];
      }
    }

    /** The first slot to fetch for the back, once the ring holds something. */
    method ChooseBack()
      requires Valid() && (started || back.None?) && (backfillUpto.None? || nextBack.None?)
      modifies this`backfillUpto, this`nextBack, this`clean
      ensures Valid() && (backfillUpto == old(backfillUpto) || backfillUpto.None?)
      ensures old(backfillUpto.Some? && nextBack.None? && back.Some? && back.value > 0) ==>
                if back.value > old(backfillUpto).value + 1
                then nextBack == Some(back.value - 1) && backfillUpto == old(backfillUpto) else backfillUpto.None?
      ensures backfillUpto.Some? && old(backfillUpto).Some? ==>
                forall s :: s in dropped ==> nextBack.Some? && s <= nextBack.value
    {
      hide Inv, Announced, Covered, Sourced;
      if backfillUpto.Some? && back.Some? && back.value > 0 {
        if back.value - 1 > backfillUpto.value {
          nextBack, clean := Some(back.value - 1), back == lowest;
        } else {
          backfillUpto := None;
        }
      }
    }

    /** Exactly the slots from `from` down to above `request`, none below the last one wanted, have been requested besides. */
    static ghost predicate DownTo(from: Slot, request: Slot, upto: Slot, inFlight0: set<Slot>, inFlight: set<Slot>) {
      && request <= from && (request < from ==> upto <= request + 1)
      && forall s :: s in inFlight <==> s in inFlight0 || request < s <= from
    }

    method RequestBelow()
      requires Valid() && (started || back.None?) && backfillUpto.Some? && nextBack.Some?
      modifies this`nextRequest, this`inFlight, this`requests
      ensures Valid() && nextRequest.Some?
      ensures old(nextRequest.None? && requests == []) ==> nextBack.value in inFlight && nextRequest.value < nextBack.value
      // as many slots below as there is room for, down to the last one wanted
      ensures DownTo(if old(nextRequest).None? then nextBack.value else old(nextRequest).value, nextRequest.value,
                     backfillUpto.value, old(inFlight), inFlight)
      ensures nextRequest.value < backfillUpto.value || |requests| >= concurrency
      ensures |requests| <= |old(requests)| || |requests| <= concurrency
    {
      hide Valid;
      StartBelow();
      ghost var from := nextRequest.value;
      while nextRequest.value >= backfillUpto.value && !IsFull()
        invariant Valid() && nextRequest.Some?
        invariant DownTo(from, nextRequest.value, backfillUpto.value, old(inFlight), inFlight)
        invariant |requests| <= |old(requests)| || |requests| <= concurrency
        invariant old(nextRequest.None? && requests == []) ==>
                    if requests == [] then nextRequest == nextBack
                    else nextBack.value in inFlight && nextRequest.value < nextBack.value
        decreases nextRequest.value
      {
        RequestOne();
      }
    }

    /** The first request below the ring is for the first slot to store there. */
    method StartBelow()
      requires Valid() && (started || back.None?) && backfillUpto.Some? && nextBack.Some?
      modifies this`nextRequest
      ensures Valid() && nextRequest.Some? && 0 < backfillUpto.value <= nextBack.value && concurrency > 0
      ensures nextRequest == if old(nextRequest).None? then nextBack else old(nextRequest)
    {
      hide Inv, RingBooks, Announced, Matching, Covered, Sourced;
      if nextRequest.None? {
        nextRequest := nextBack;
      }
    }

    method RequestOne()
      requires Valid() && backfillUpto.Some? && nextBack.Some? && nextRequest.Some? && nextRequest.value >= backfillUpto.value
      modifies this`nextRequest, this`inFlight, this`requests
      ensures Valid() && old(nextRequest).value > 0 && nextRequest == Some(old(nextRequest).value - 1)
      ensures inFlight == old(inFlight) + {old(nextRequest).value} && |requests| <= |old(requests)| + 1 && requests != []
    {
      hide Inv, RingBooks, Announced, Sourced;
      Fetch(nextRequest.value);
      nextRequest := Some(nextRequest.value - 1);
    }

    /** One verdict of the resolver: fetch what is missing below it, then queue or fetch it. */
    method Absorb(v: Verdict)
      requires Books(next) && BackBooks(next) && memory.genNext == v.slot + 1
      requires last.Some? ==> v.slot == last.value + 1
      modifies this`queue, this`inFlight, this`requests, this`last
      ensures Books(next) && BackBooks(next) && last == Some(v.slot)
      ensures if v.slot < next then queue == old(queue) && inFlight == old(inFlight)
              else Took(next, v, old(queue), queue, old(inFlight), inFlight)
    {
      hide Announced, Matching;
      last := Some(v.slot);
      if v.slot < next {
        return;
      }
      FetchMissing(v.slot);
      match v {
        case Missed(slot) => Fetch(slot);
        case Dead(slot) => queue := queue[slot := None];
        case Found(slot, block) => queue := queue[slot := Some(block)];
      }
    }

    /** What one verdict at or above the next slot makes of the queue and the slots in flight. */
    static ghost predicate Took(next: Slot, v: Verdict, queue0: map<Slot, Fetched>, queue: map<Slot, Fetched>,
                                inFlight0: set<Slot>, inFlight: set<Slot>) {
      && (v.Found? ==> queue == queue0[v.slot := Some(v.block)])
      && (v.Dead? ==> queue == queue0[v.slot := None])
      && (v.Missed? ==> queue == queue0)
      && forall s :: s in inFlight <==>
           s in inFlight0 || (next <= s < v.slot && s !in queue0) || (s == v.slot && v.Missed?)
    }

    /** Fetch every slot from the next one up to `to` that is not queued. */
    method FetchMissing(to: Slot)
      requires BackBooks(next) && Matching(requests, inFlight) && next <= to
      modifies this`inFlight, this`requests
      ensures BackBooks(next) && Matching(requests, inFlight)
      ensures forall s :: s in inFlight <==> s in old(inFlight) || (next <= s < to && s !in queue)
    {
      hide Matching;
      for slot := next to to
        invariant BackBooks(next) && Matching(requests, inFlight)
        invariant forall s :: s in inFlight <==> s in old(inFlight) || (next <= s < slot && s !in queue)
      {
        if slot !in queue {
          Fetch(slot);
        }
      }
    }

    /**
     A stream message about a slot: record it, drain the resolver, push what is
     ready. `verdicts` is what the resolver answers, and `queued` the queue after
     it and before the pushes.
     */
    method OnStream(slot: Slot, mark: Mark) returns (ghost verdicts: seq<Verdict>, ghost queued: map<Slot, Fetched>)
      requires Valid() && started && Legal(slot, mark) && Accepts(memory, slot, mark)
      modifies this`next, this`memory, this`queue, this`inFlight, this`requests, this`front, this`back, this`log,
               this`last, this`lowest, this`given
      ensures Valid() && old(next) <= next
      ensures memory.confirmed > 0 ==> memory.genNext == memory.confirmed + 1
      // every verdict is accounted for, and the slots pushed carry what was queued for them
      ensures Inv(Record(old(memory), slot, mark)) && (memory, verdicts) == MemoryRuns.Drain(Record(old(memory), slot, mark))
      ensures Accounted(old(next), verdicts, old(queue), queued)
      ensures Requested(old(next), verdicts, old(queue), old(inFlight), inFlight)
      ensures Taken(old(next), next, queued, queue) && forall s :: old(next) <= s < next ==> s in queued
      ensures log == old(log) + Pushes(old(next), next, queued)
      ensures given == old(given) + GivenBy(verdicts)
      // no slot is forgotten, and the slot the loop waits for is being fetched
      ensures last.Some? ==> forall s :: next <= s <= last.value ==> s in queue || s in inFlight
      ensures last.Some? && next <= last.value ==> next in inFlight
    {
      hide Inv, Books, BackBooks, Record, Accepts, Legal, Taken, Pushes, Accounted, Requested, Sourced, GivenBy, MemoryRuns.Drain;
      verdicts := Resolve(slot, mark);
      queued := queue;
      PushNext();
    }

    /** Record the message, then take every verdict of the resolver. */
    method Resolve(slot: Slot, mark: Mark) returns (ghost verdicts: seq<Verdict>)
      requires Inv(memory) && Legal(slot, mark) && Accepts(memory, slot, mark)
      requires Books(next) && BackBooks(next) && Sourced(given, queue, backQueue, log, backLog)
      modifies this`queue, this`inFlight, this`requests, this`last, this`memory, this`given
      ensures Books(next) && BackBooks(next) && Sourced(given, queue, backQueue, log, backLog)
      ensures Inv(memory) && (memory.confirmed > 0 ==> memory.genNext == memory.confirmed + 1)
      ensures Inv(Record(old(memory), slot, mark)) && (memory, verdicts) == MemoryRuns.Drain(Record(old(memory), slot, mark))
      ensures Accounted(next, verdicts, old(queue), queue) && Requested(next, verdicts, old(queue), old(inFlight), inFlight)
      ensures given == old(given) + GivenBy(verdicts)
    {
      hide Inv, Books, BackBooks, Record, Accepts, Legal, Accounted, Requested, Sourced, GivenBy, MemoryRuns.Drain;
      RecordMark(slot, mark);
      verdicts := DrainMemory();
      SourcedQueue(given, next, verdicts, old(queue), queue, backQueue, log, backLog);
      Give(verdicts);
    }

    ghost method Give(verdicts: seq<Verdict>)
      requires Books(next) && BackBooks(next)
      modifies this`given
      ensures Books(next) && BackBooks(next) && given == old(given) + GivenBy(verdicts)
    {
      hide FrontBooks, RingBooks, BackRequested, GivenBy;
      given := given + GivenBy(verdicts);
    }

    method RecordMark(slot: Slot, mark: Mark)
      requires Inv(memory) && Books(next) && BackBooks(next) && Legal(slot, mark) && Accepts(memory, slot, mark)
      modifies this`memory
      ensures Inv(memory) && Books(next) && BackBooks(next) && memory == Record(old(memory), slot, mark)
    {
      hide Inv, Announced, Covered, BackRequested, Matching, Record, Accepts, Legal;
      RecordNumbers(memory, slot, mark);
      memory := Record(memory, slot, mark);
    }

    /** `while let Some(block) = pop_confirmed()`. */
    method DrainMemory() returns (ghost verdicts: seq<Verdict>)
      requires Inv(memory) && Books(next) && BackBooks(next)
      modifies this`queue, this`inFlight, this`requests, this`last, this`memory
      ensures Inv(memory) && Books(next) && BackBooks(next)
      ensures memory.confirmed > 0 ==> memory.genNext == memory.confirmed + 1
      ensures (memory, verdicts) == MemoryRuns.Drain(old(memory))
      ensures Accounted(next, verdicts, old(queue), queue) && Requested(next, verdicts, old(queue), old(inFlight), inFlight)
    {
      hide Announced, Inv, Books, BackBooks, Accounted, Requested, MemoryRuns.Drain;
      verdicts := [];
      NothingDrained(next, queue, inFlight);
      ghost var all := MemoryRuns.Drain(memory);
      assert [] + all.1 == all.1;
      while true
        invariant Inv(memory) && Books(next) && BackBooks(next)
        invariant all == (MemoryRuns.Drain(memory).0, verdicts + MemoryRuns.Drain(memory).1)
        invariant Numbered(verdicts, memory.genNext)
        invariant Accounted(next, verdicts, old(queue), queue) && Requested(next, verdicts, old(queue), old(inFlight), inFlight)
        decreases memory.confirmed + 1 - memory.genNext
      {
        PopKeeps(memory);
        Popped(memory);
        DrainStep(memory);
        var (rest, v) := Pop(memory);
        if v.None? {
          assert verdicts + [] == verdicts;
          break;
        }
        ghost var queue1, inFlight1 := queue, inFlight;
        TakeVerdict(rest, v.value);
        OneVerdictMore(next, verdicts, v.value, old(queue), queue1, queue, old(inFlight), inFlight1, inFlight);
        assert (verdicts + [v.value]) + MemoryRuns.Drain(memory).1 == verdicts + ([v.value] + MemoryRuns.Drain(memory).1);
        verdicts := verdicts + [v.value];
      }
    }

    method TakeVerdict(rest: State, v: Verdict)
      requires Books(next) && BackBooks(next)
      requires v.slot == memory.genNext && rest.genNext == memory.genNext + 1
      modifies this`queue, this`inFlight, this`requests, this`last, this`memory
      ensures Books(next) && BackBooks(next) && memory == rest
      ensures if v.slot < next then queue == old(queue) && inFlight == old(inFlight)
              else Took(next, v, old(queue), queue, old(inFlight), inFlight)
    {
      ghost var before := last;
      memory := rest;
      last := None;
      Absorb(v);
    }
  }

  /** Verdicts number their slots consecutively up to `below`. */
  ghost predicate Numbered(verdicts: seq<Verdict>, below: Slot) {
    forall i :: 0 <= i < |verdicts| ==> verdicts[i].slot == below - |verdicts| + i
  }

  lemma NothingDrained(next: Slot, queue: map<Slot, Fetched>, inFlight: set<Slot>)
    ensures Accounted(next, [], queue, queue) && Requested(next, [], queue, inFlight, inFlight)
  {
  }

  lemma DrainStep(s: State)
    requires Inv(s)
    ensures var (t, v) := Pop(s);
            MemoryRuns.Drain(s) == if v.None? then (s, []) else (PopKeeps(s); (MemoryRuns.Drain(t).0, [v.value] + MemoryRuns.Drain(t).1))
  {
    hide Inv, Pop;
    PopKeeps(s);
  }

  /** One more verdict is accounted for. */
  lemma OneVerdictMore(next: Slot, verdicts: seq<Verdict>, v: Verdict, queue0: map<Slot, Fetched>, queue1: map<Slot, Fetched>,
                       queue: map<Slot, Fetched>, inFlight0: set<Slot>, inFlight1: set<Slot>, inFlight: set<Slot>)
    requires Numbered(verdicts, v.slot)
    requires Accounted(next, verdicts, queue0, queue1) && Requested(next, verdicts, queue0, inFlight0, inFlight1)
    requires if v.slot < next then queue == queue1 && inFlight == inFlight1 else Loop.Took(next, v, queue1, queue, inFlight1, inFlight)
    ensures Accounted(next, verdicts + [v], queue0, queue) && Requested(next, verdicts + [v], queue0, inFlight0, inFlight)
    ensures Numbered(verdicts + [v], v.slot + 1)
  {
    AccountedMore(next, verdicts, v, queue0, queue1, queue);
    RequestedMore(next, verdicts, v, queue0, queue1, queue, inFlight0, inFlight1, inFlight);
  }

  lemma AccountedMore(next: Slot, verdicts: seq<Verdict>, v: Verdict, queue0: map<Slot, Fetched>, queue1: map<Slot, Fetched>,
                      queue: map<Slot, Fetched>)
    requires Numbered(verdicts, v.slot) && Accounted(next, verdicts, queue0, queue1)
    requires if v.slot < next then queue == queue1
             else queue == match v
                           case Found(s, b) => queue1[s := Some(b)]
                           case Dead(s) => queue1[s := None]
                           case Missed(_) => queue1
    ensures Accounted(next, verdicts + [v], queue0, queue)
  {
    var more := verdicts + [v];
    assert v in more && forall w :: w in verdicts ==> w in more && w.slot != v.slot;
    forall s | s in queue ensures (s >= next && Reported(more, s)) || (s in queue0 && queue[s] == queue0[s]) {
      if s in queue1 && queue[s] == queue1[s] && s >= next && Reported(verdicts, s) {
        var w :| w in verdicts && w.slot == s && !w.Missed?;
        assert w in more;
      }
    }
  }

  lemma RequestedMore(next: Slot, verdicts: seq<Verdict>, v: Verdict, queue0: map<Slot, Fetched>, queue1: map<Slot, Fetched>,
                      queue: map<Slot, Fetched>, inFlight0: set<Slot>, inFlight1: set<Slot>, inFlight: set<Slot>)
    requires Numbered(verdicts, v.slot)
    requires Accounted(next, verdicts, queue0, queue1) && Requested(next, verdicts, queue0, inFlight0, inFlight1)
    requires if v.slot < next then inFlight == inFlight1 else Loop.Took(next, v, queue1, queue, inFlight1, inFlight)
    ensures Requested(next, verdicts + [v], queue0, inFlight0, inFlight)
  {
    var more := verdicts + [v];
    assert forall s: Slot :: Missed(s) in more <==> Missed(s) in verdicts || v == Missed(s);
    forall s: Slot ensures s in inFlight <==>
        s in inFlight0 || (s >= next && (Missed(s) in more || (s < more[0].slot && s !in queue0)))
    {
      if next <= s < v.slot && verdicts != [] && verdicts[0].slot <= s {
        var w := verdicts[s - verdicts[0].slot];
        assert w in verdicts && w.slot == s;
        assert w.Missed? ==> w == Missed(s);
      }
    }
  }

  /** What is queued after a drain was queued before or has just been given by the resolver. */
  lemma SourcedQueue(given: set<(Slot, Fetched)>, next: Slot, verdicts: seq<Verdict>, queue0: map<Slot, Fetched>, queue: map<Slot, Fetched>,
                     backQueue: map<Slot, Fetched>, log: seq<Sync>, backLog: seq<(Slot, Fetched)>)
    requires Sourced(given, queue0, backQueue, log, backLog) && Accounted(next, verdicts, queue0, queue)
    ensures Sourced(given + GivenBy(verdicts), queue, backQueue, log, backLog)
  {
    GivenByVerdicts(verdicts);
    forall s | s in queue ensures (s, queue[s]) in given + GivenBy(verdicts) {
      if s >= next && Reported(verdicts, s) {
        var v :| v in verdicts && v.slot == s && !v.Missed?;
        assert if v.Found? then v == Found(s, v.block) else v == Dead(s);
      }
    }
  }

  lemma {:induction false} GivenByVerdicts(verdicts: seq<Verdict>)
    ensures forall s: Slot, b :: Found(s, b) in verdicts ==> (s, Some(b)) in GivenBy(verdicts)
    ensures forall s: Slot :: Dead(s) in verdicts ==> (s, None) in GivenBy(verdicts)
    ensures forall p :: p in GivenBy(verdicts) ==>
              if p.1.Some? then Found(p.0, p.1.value) in verdicts else Dead(p.0) in verdicts
  {
    if verdicts != [] {
      var n := |verdicts| - 1;
      GivenByVerdicts(verdicts[..n]);
      assert verdicts == verdicts[..n] + [verdicts[n]];
    }
  }

  /** A loop that holds slot 11, asks for slots 10 to 7 below it and has not heard of them. */
  method Backfilling() returns (loop: Loop)
    ensures fresh(loop) && loop.Valid() && loop.front == Some(11) && loop.backfillUpto == Some(8) && loop.nextBack == Some(10)
    ensures loop.nextRequest.Some? && loop.nextRequest.value < 10
    ensures loop.inFlight >= {10} && loop.backQueue == map[] && loop.dropped == {}
  {
    hide Inv, Announced, Covered, Matching, Sourced, BackRequested, Loop.Valid, Loop.Books, Loop.BackBooks, Loop.Stores;
    loop := new Loop(Some((11, 11)), Some((11, 11)), 11, Some(8), 4);
    loop.OnStart();
    loop.Backfill(true);
    loop.Backfill(true);
  }

  /** A run that loses slot 10: it is being backfilled when a catch-up starts, and its request ends there. */
  method CatchUpLosesABackfillSlot(block: Fetched) returns (loop: Loop, result: CatchUpResult)
    ensures 10 in loop.dropped && 10 !in loop.inFlight && 10 !in loop.backQueue
    ensures loop.backfillUpto == Some(8) && loop.nextBack == Some(10) && loop.nextRequest.Some? && loop.nextRequest.value < 10
  {
    hide Inv, Loop.Valid, Sourced, Loop.Books, Loop.BackBooks, GivenBesides;
    loop := Backfilling();
    ghost var ended;
    result, ended := loop.CatchUp(20, [Turn(None, 10, block)]);
  }

  lemma EmptyInv()
    ensures Inv(Empty)
  {
  }

  lemma RecordNumbers(s: State, slot: Slot, mark: Mark)
    requires Inv(s) && Legal(slot, mark) && Accepts(s, slot, mark)
    ensures Inv(Record(s, slot, mark))
    ensures s.genNext > 0 ==> Record(s, slot, mark).genNext == s.genNext
  {
    RecordKeeps(s, slot, mark);
    AddSlotKeeps(s, slot);
  }

  lemma Popped(s: State)
    requires Inv(s)
    ensures Pop(s).1.None? ==> s.confirmed > 0 ==> s.genNext == s.confirmed + 1
  {
    PopKeeps(s);
  }
}
