// The response cache of Services/ble_command_service/ble_command_service.c:
// a request that is sent again is answered again, not carried out again.
module RetryCache {
  import opened FixedWidth
  import opened BleCommandProtocol

  const BLE_OPERATION_SAVE_CONFIG: u8 := 0x27

  datatype CachedResponse = CachedResponse(valid: bool, pending: bool, request: BleCommandRequest, response: Bytes)

  const NO_REQUEST: BleCommandRequest := BleCommandRequest(0, 0, 0, [])

  // What becomes of a request, and the response handed to the transport.
  datatype Outcome =
    | Conflict(queued: Bytes)
    | Repeated(queued: Bytes)
    | Dropped
    | Executed(queued: Bytes)

  // Executed requests with one transaction number are at least four executions apart.
  ghost predicate Spaced(executed: seq<BleCommandRequest>) {
    forall a, b :: 0 <= a < b < |executed| && executed[a].transaction_id == executed[b].transaction_id ==> b - a >= 4
  }

  lemma SpacedGrows(executed: seq<BleCommandRequest>, request: BleCommandRequest)
    requires Spaced(executed)
    requires forall a :: |executed| - 3 <= a < |executed| && 0 <= a ==>
              executed[a].transaction_id != request.transaction_id
    ensures Spaced(executed + [request])
  {}

  // No transaction number is held twice.
  ghost predicate Distinct(cells: seq<CachedResponse>) {
    forall i, j :: 0 <= i < j < |cells| && cells[i].valid && cells[j].valid ==>
      cells[i].request.transaction_id != cells[j].request.transaction_id
  }

  predicate Waits(c: CachedResponse) { c.valid && c.pending }

  ghost predicate OnePending(cells: seq<CachedResponse>, pending: int) {
    -1 <= pending < |cells| && forall i :: 0 <= i < |cells| ==> (Waits(cells[i]) <==> i == pending)
  }

  // The last three requests carried out are in the cache, newest first at `places`.
  ghost predicate Placed(cells: seq<CachedResponse>, executed: seq<BleCommandRequest>, places: seq<nat>) {
    && |places| == (if |executed| < 3 then |executed| else 3)
    && (forall k :: 0 <= k < |places| ==>
          places[k] < |cells| && cells[places[k]].valid && cells[places[k]].request == executed[|executed| - 1 - k])
    && (forall j, k :: 0 <= j < k < |places| ==> places[j] != places[k])
  }

  // What a place answers, nothing while its save goes on.
  ghost function AnswerOf(c: CachedResponse): Option<Bytes> { if c.pending then None else Some(c.response) }

  // Their places answer what they were answered.
  ghost predicate Answered(cells: seq<CachedResponse>, places: seq<nat>, answers: seq<Option<Bytes>>) {
    && |places| <= |answers|
    && forall k :: 0 <= k < |places| ==>
         places[k] < |cells| && answers[|answers| - 1 - k] == AnswerOf(cells[places[k]])
  }

  // The end of a save is the answer that was still open.
  ghost function Closed(answers: seq<Option<Bytes>>, response: Bytes): (r: seq<Option<Bytes>>)
    ensures |r| == |answers|
    ensures forall a :: 0 <= a < |r| ==> r[a] == if answers[a].None? then Some(response) else answers[a]
  {
    seq(|answers|, a requires 0 <= a < |answers| => if answers[a].None? then Some(response) else answers[a])
  }

  // `steps` places further round.
  function After(place: nat, steps: nat): nat { if place + steps < 4 then place + steps else place + steps - 4 }

  // The next place follows the newest.  Between two executions at most one
  // place, a pending one, was passed over, and then no other is pending.
  ghost predicate Turned(next: nat, pending: int, places: seq<nat>) {
    && next < 4 && (forall k :: 0 <= k < |places| ==> places[k] < 4)
    && (|places| >= 1 ==> next == After(places[0], 1))
    && (|places| >= 2 ==>
          || places[0] == After(places[1], 1)
          || (places[0] == After(places[1], 2) && pending != After(places[1], 3)))
  }

  // Where the next request goes.
  function NextPlace(next: nat, pending: int): nat { if next == pending then After(next, 1) else next }

  // That is none of the last two.
  lemma NextPlaceIsOld(next: nat, pending: int, places: seq<nat>)
    requires Turned(next, pending, places) && (|places| >= 2 ==> places[0] != places[1])
    ensures NextPlace(next, pending) < 4 && NextPlace(next, pending) != pending
    ensures |places| >= 1 ==> NextPlace(next, pending) != places[0]
    ensures |places| >= 2 ==> NextPlace(next, pending) != places[1]
  {}

  lemma NextTurned(next: nat, pending: int, places: seq<nat>)
    requires Turned(next, pending, places) && -1 <= pending < 4
    ensures var place := NextPlace(next, pending);
            Turned(After(place, 1), pending, [place] + places[..if |places| < 2 then |places| else 2])
  {}

  // A new request in place of one that is not among the last two nor pending.
  lemma EnteredPlaced(cells: seq<CachedResponse>, executed: seq<BleCommandRequest>, places: seq<nat>, place: nat,
                      entry: CachedResponse)
    requires Placed(cells, executed, places) && place < |cells| && entry.valid
    requires (|places| >= 1 ==> place != places[0]) && (|places| >= 2 ==> place != places[1])
    ensures Placed(cells[place := entry], executed + [entry.request],
                   [place] + places[..if |places| < 2 then |places| else 2])
  {
    var kept := places[..if |places| < 2 then |places| else 2];
    assert forall k :: 0 <= k < |kept| ==> kept[k] == places[k] != place;
  }

  lemma EnteredAnswered(cells: seq<CachedResponse>, places: seq<nat>, answers: seq<Option<Bytes>>, place: nat,
                        entry: CachedResponse)
    requires Answered(cells, places, answers) && place < |cells|
    requires (|places| >= 1 ==> place != places[0]) && (|places| >= 2 ==> place != places[1])
    ensures Answered(cells[place := entry], [place] + places[..if |places| < 2 then |places| else 2],
                     answers + [AnswerOf(entry)])
  {
    var kept := places[..if |places| < 2 then |places| else 2];
    assert forall k :: 0 <= k < |kept| ==> kept[k] == places[k] != place;
  }

  // Whoever holds a number answers what the last request that had it was answered.
  lemma HolderAnswers(cells: seq<CachedResponse>, executed: seq<BleCommandRequest>, places: seq<nat>,
                      answers: seq<Option<Bytes>>, i: nat)
    requires Placed(cells, executed, places) && Distinct(cells) && i < |cells| && cells[i].valid
    requires Answered(cells, places, answers) && |answers| == |executed|
    ensures forall a :: |executed| - 3 <= a < |executed| && 0 <= a
                        && executed[a].transaction_id == cells[i].request.transaction_id ==>
              answers[a] == AnswerOf(cells[i])
  {
    forall a | |executed| - 3 <= a < |executed| && 0 <= a
               && executed[a].transaction_id == cells[i].request.transaction_id
      ensures answers[a] == AnswerOf(cells[i])
    {
      var k := |executed| - 1 - a;
      assert cells[places[k]].valid && cells[places[k]].request == executed[a];
      assert places[k] == i;
      assert answers[|answers| - 1 - k] == AnswerOf(cells[places[k]]);
    }
  }

  lemma EnteredDistinct(cells: seq<CachedResponse>, place: nat, entry: CachedResponse)
    requires Distinct(cells) && place < |cells|
    requires forall i :: 0 <= i < |cells| && cells[i].valid ==>
              cells[i].request.transaction_id != entry.request.transaction_id
    ensures Distinct(cells[place := entry])
  {}

  lemma EnteredPending(cells: seq<CachedResponse>, pending: int, place: nat, entry: CachedResponse)
    requires OnePending(cells, pending) && place < |cells| && place != pending && (entry.pending ==> pending == -1)
    ensures entry.valid ==> OnePending(cells[place := entry], if entry.pending then place else pending)
  {}

  // A request with a number that the cache lacks is not among the last three.
  lemma NewTransaction(cells: seq<CachedResponse>, executed: seq<BleCommandRequest>, places: seq<nat>,
                       transaction_id: u16)
    requires Placed(cells, executed, places)
    requires forall i :: 0 <= i < |cells| && cells[i].valid ==> cells[i].request.transaction_id != transaction_id
    ensures forall a :: |executed| - 3 <= a < |executed| && 0 <= a ==> executed[a].transaction_id != transaction_id
  {
    forall a | |executed| - 3 <= a < |executed| && 0 <= a ensures executed[a].transaction_id != transaction_id {
      assert cells[places[|executed| - 1 - a]].request == executed[a];
    }
  }

  // Whoever holds a number holds the last request that had it.
  lemma HolderIs(cells: seq<CachedResponse>, executed: seq<BleCommandRequest>, places: seq<nat>, i: nat)
    requires Placed(cells, executed, places) && Distinct(cells) && i < |cells| && cells[i].valid
    ensures forall a :: |executed| - 3 <= a < |executed| && 0 <= a
                        && executed[a].transaction_id == cells[i].request.transaction_id ==>
              executed[a] == cells[i].request
  {
    forall a | |executed| - 3 <= a < |executed| && 0 <= a
               && executed[a].transaction_id == cells[i].request.transaction_id
      ensures executed[a] == cells[i].request
    {
      assert cells[places[|executed| - 1 - a]].request == executed[a];
    }
  }

  // With one pending place the first free one is the next or the one after it.
  lemma FreeIsNext(cells: seq<CachedResponse>, pending: int, next: nat, steps: nat)
    requires |cells| == 4 && OnePending(cells, pending) && next < 4 && FirstFree(cells, next, steps)
    ensures After(next, steps) == NextPlace(next, pending)
  {
    assert Waits(cells[After(next, 1)]) ==> After(next, 1) == pending;
    assert steps > 0 ==> Waits(cells[After(next, 0)]);
  }

  // So many places from `next` on are waiting for a save, and the one behind them is not.
  ghost predicate FirstFree(cells: seq<CachedResponse>, next: nat, steps: nat)
    requires |cells| == 4 && next < 4
  {
    steps < 4 && !Waits(cells[After(next, steps)]) && forall j :: 0 <= j < steps ==> Waits(cells[After(next, j)])
  }

  class RetryCache {
    const cache: array<CachedResponse>
    var cache_next: u8
    var pending_save_index: int
    // The requests carried out, what each was answered, nothing while its save goes
    // on, where the last three of them are kept, newest first, and whether every
    // save accepted found none pending before it.
    ghost var executed: seq<BleCommandRequest>
    ghost var answers: seq<Option<Bytes>>
    ghost var places: seq<nat>
    ghost var orderly: bool

    ghost predicate Valid()
      reads this, cache
    {
      && cache.Length == 4 && Distinct(cache[..]) && cache_next < 4 && -1 <= pending_save_index < 4
      && |answers| == |executed| && (pending_save_index >= 0 ==> Waits(cache[pending_save_index]))
      && (orderly ==> OnePending(cache[..], pending_save_index) && Kept(cache_next as nat))
    }

    // With at most one pending save the last three requests are kept.
    ghost predicate Kept(next: nat)
      reads this`pending_save_index, this`executed, this`answers, this`places, cache
    {
      && Placed(cache[..], executed, places) && Turned(next, pending_save_index, places) && Spaced(executed)
      && Answered(cache[..], places, answers)
    }

    constructor ()
      ensures Valid() && executed == [] && fresh(cache) && pending_save_index == -1 && orderly && cache_next == 0
      ensures forall i :: 0 <= i < 4 ==> !cache[i].valid
    {
      cache := new CachedResponse[4](_ => CachedResponse(false, false, NO_REQUEST, []));
      cache_next, pending_save_index := 0, -1;
      executed, answers, places, orderly := [], [], [], true;
    }

    // The place of the transaction, if it is held.
    method FindCache(request: BleCommandRequest) returns (found: Option<nat>)
      requires cache.Length == 4
      ensures found.Some? ==>
                found.value < 4 && cache[found.value].valid
                && cache[found.value].request.transaction_id == request.transaction_id
      ensures found.None? ==>
                forall i :: 0 <= i < 4 && cache[i].valid ==> cache[i].request.transaction_id != request.transaction_id
    {
      for index := 0 to 4
        invariant forall i :: 0 <= i < index && cache[i].valid ==>
                    cache[i].request.transaction_id != request.transaction_id
      {
        if cache[index].valid && cache[index].request.transaction_id == request.transaction_id { return Some(index); }
      }
      return None;
    }

    // The first place from cache_next on that is not waiting for a save, if any.
    method AllocateCache() returns (place: Option<nat>, ghost steps: nat)
      requires cache.Length == 4 && cache_next < 4
      modifies this`cache_next
      ensures place.Some? <==> exists i :: 0 <= i < 4 && !Waits(cache[i])
      ensures place.Some? ==>
                && FirstFree(cache[..], old(cache_next) as nat, steps)
                && place.value == After(old(cache_next) as nat, steps)
                && cache_next == After(place.value, 1)
      ensures place.None? ==> cache_next == old(cache_next)
    {
      var start := cache_next as nat;
      for index := 0 to 4
        invariant cache_next == start
        invariant forall j :: 0 <= j < index ==> Waits(cache[After(start, j)])
      {
        var candidate := (start + index) % 4;
        if !cache[candidate].valid || !cache[candidate].pending {
          cache_next := (candidate + 1) % 4;
          return Some(candidate), index;
        }
      }
      assert Waits(cache[After(start, 0)]) && Waits(cache[After(start, 1)]);
      assert Waits(cache[After(start, 2)]) && Waits(cache[After(start, 3)]);
      return None, 0;
    }

    // Enters a new request with what is known of its response.
    method Enter(place: nat, entry: CachedResponse, ghost next: nat)
      requires cache.Length == 4 && Distinct(cache[..]) && place < 4 && !Waits(cache[place])
      requires cache_next == After(place, 1)
      requires -1 <= pending_save_index < 4 && (pending_save_index >= 0 ==> Waits(cache[pending_save_index]))
      requires orderly ==>
                 OnePending(cache[..], pending_save_index) && Kept(next) && place == NextPlace(next, pending_save_index)
      requires entry.valid && |answers| == |executed|
      requires forall i :: 0 <= i < 4 && cache[i].valid ==>
                cache[i].request.transaction_id != entry.request.transaction_id
      modifies cache, this`executed, this`answers, this`places, this`pending_save_index, this`orderly
      ensures answers == old(answers) + [AnswerOf(entry)]
      ensures Valid() && executed == old(executed) + [entry.request] && cache[..] == old(cache[..])[place := entry]
      ensures pending_save_index == if entry.pending then place else old(pending_save_index)
      ensures orderly == (old(orderly) && (entry.pending ==> old(pending_save_index) == -1))
    {
      hide Spaced, Distinct, OnePending, Placed, Turned, NextPlace, Kept, Answered, AnswerOf;
      ghost var cells := cache[..];
      assert forall i :: 0 <= i < 4 ==> cells[i] == cache[i];
      EnteredDistinct(cells, place, entry);
      orderly := orderly && (entry.pending ==> pending_save_index == -1);
      if orderly {
        EnteredKept(place, entry, next);
      }
      cache[place] := entry;
      assert cache[..] == cells[place := entry];
      executed, answers := executed + [entry.request], answers + [AnswerOf(entry)];
      places := [place] + places[..if |places| < 2 then |places| else 2];
      if entry.pending {
        pending_save_index := place;
      }
      AfterInRange(place);
      KeptIs();
    }

    lemma KeptIs()
      ensures Kept(cache_next as nat) <==>
                && Placed(cache[..], executed, places) && Turned(cache_next as nat, pending_save_index, places)
                && Spaced(executed) && Answered(cache[..], places, answers)
    {}

    lemma EnteredKept(place: nat, entry: CachedResponse, next: nat)
      requires cache.Length == 4 && OnePending(cache[..], pending_save_index) && Kept(next)
      requires place == NextPlace(next, pending_save_index) && entry.valid
      requires (entry.pending ==> pending_save_index == -1)
      requires forall i :: 0 <= i < 4 && cache[i].valid ==>
                cache[i].request.transaction_id != entry.request.transaction_id
      ensures var cells, kept := cache[..][place := entry], [place] + places[..if |places| < 2 then |places| else 2];
              var pending := if entry.pending then place else pending_save_index;
              && place < 4 && OnePending(cells, pending) && Placed(cells, executed + [entry.request], kept)
              && Turned(After(place, 1), pending, kept) && Spaced(executed + [entry.request])
              && Answered(cells, kept, answers + [AnswerOf(entry)])
    {
      hide Spaced, OnePending, Placed, Turned, After, NextPlace, Answered, AnswerOf;
      ghost var cells := cache[..];
      assert forall i :: 0 <= i < 4 ==> cells[i] == cache[i];
      PlacesDiffer(cells, executed, places, pending_save_index);
      NextPlaceIsOld(next, pending_save_index, places);
      NextTurned(next, pending_save_index, places);
      NewTransaction(cells, executed, places, entry.request.transaction_id);
      SpacedGrows(executed, entry.request);
      EnteredPlaced(cells, executed, places, place, entry);
      EnteredAnswered(cells, places, answers, place, entry);
      EnteredPending(cells, pending_save_index, place, entry);
      if entry.pending {
        NowPending(After(place, 1), [place] + places[..if |places| < 2 then |places| else 2], place);
      }
    }

    // `saves` says that the command service accepted the request as a save.  The
    // responses are those encoded for it.
    method HandleRequest(request: BleCommandRequest, saves: bool, response: Bytes,
                         conflict: Bytes) returns (outcome: Outcome)
      requires Valid()
      requires saves ==> request.operation == BLE_OPERATION_SAVE_CONFIG
      modifies this, cache
      ensures Valid()
      ensures executed == if outcome.Executed? then old(executed) + [request] else old(executed)
      ensures answers == if outcome.Executed? then old(answers) + [if saves then None else Some(response)]
                         else old(answers)
      // A transaction that is held is not carried out again, but answered as it was the first time.
      ensures forall i :: 0 <= i < 4 && HolderOf(old(cache[i]), request) ==>
                outcome == if old(cache[i]).request == request
                           then Repeated(if old(cache[i]).pending then [] else old(cache[i]).response)
                           else Conflict(conflict)
      ensures outcome.Conflict? || outcome.Repeated? ==>
                exists i :: 0 <= i < 4 && HolderOf(old(cache[i]), request)
      // A new one is carried out in place of one that is not waiting, and dropped when all are.
      ensures outcome.Dropped? ==> forall i :: 0 <= i < 4 ==> Waits(cache[i])
      ensures outcome.Executed? ==>
                && outcome.queued == (if saves then [] else response)
                && exists i :: 0 <= i < 4 && !Waits(old(cache[i]))
                               && cache[..] == old(cache[..])[i := Entry(request, saves, response)]
                               && pending_save_index == if saves then i else old(pending_save_index)
      ensures !outcome.Executed? ==> cache[..] == old(cache[..]) && pending_save_index == old(pending_save_index)
      // As long as each save found none pending, the last three are all held.
      ensures orderly == (old(orderly) && (outcome.Executed? && saves ==> old(pending_save_index) == -1))
      ensures old(orderly) ==>
                && !outcome.Dropped?
                && forall a :: old(|executed|) - 3 <= a < old(|executed|) && 0 <= a
                               && old(executed)[a].transaction_id == request.transaction_id ==>
                     !outcome.Executed? && (outcome.Repeated? <==> old(executed)[a] == request)
      // One of them that is sent again is answered as it was the first time.
      ensures old(orderly) ==>
                forall a :: old(|executed|) - 3 <= a < old(|executed|) && 0 <= a && old(executed)[a] == request ==>
                  outcome == Repeated(if old(answers)[a].None? then [] else old(answers)[a].value)
    {
      hide Spaced, Distinct, OnePending, Placed, Turned, After, NextPlace, Answered;
      var found := FindCache(request);
      ghost var cells := cache[..];
      assert forall i :: 0 <= i < 4 ==> cells[i] == cache[i];
      if found.Some? {
        OnlyHolder(cells, found.value);
        if orderly {
          HolderIs(cells, executed, places, found.value);
          HolderAnswers(cells, executed, places, answers, found.value);
        }
        if cache[found.value].request != request { return Conflict(conflict); }
        return Repeated(if cache[found.value].pending then [] else cache[found.value].response);
      }
      if orderly { NewTransaction(cells, executed, places, request.transaction_id); }
      ghost var next := cache_next as nat;
      if orderly { OneIsFree(cells, pending_save_index); }
      var place, steps := AllocateCache();
      if place.None? { return Dropped; }
      if orderly { FreeIsNext(cells, pending_save_index, next, steps); }
      AfterInRange2(next, steps);
      Enter(place.value, Entry(request, saves, response), next);
      return Executed(if saves then [] else response);
    }

    // The end of the pending save answers its request.
    method HandleEvent(response: Bytes) returns (queued: Bytes)
      requires Valid()
      modifies this`pending_save_index, this`answers, cache
      ensures Valid() && pending_save_index == -1
      ensures answers == if old(pending_save_index) == -1 then old(answers) else Closed(old(answers), response)
      ensures queued == if old(pending_save_index) == -1 then [] else response
      ensures old(pending_save_index) == -1 ==> cache[..] == old(cache[..])
      ensures old(pending_save_index) >= 0 ==>
                var done := old(cache[pending_save_index]).(pending := false, response := response);
                cache[..] == old(cache[..])[old(pending_save_index) := done]
    {
      hide Spaced, Distinct, Placed, Turned, OnePending, Answered;
      if pending_save_index < 0 { return []; }
      var index := pending_save_index as nat;
      ghost var cells := cache[..];
      DistinctDone(cells, index, response);
      if orderly {
        SaveDone(cells, executed, places, cache_next, index, response);
        SaveAnswered(cells, executed, places, answers, index, response);
      }
      answers := Closed(answers, response);
      cache[index] := cache[index].(pending := false, response := response);
      assert cache[..] == cells[index := cells[index].(pending := false, response := response)];
      pending_save_index := -1;
      return response;
    }
  }

  predicate HolderOf(c: CachedResponse, request: BleCommandRequest) {
    c.valid && c.request.transaction_id == request.transaction_id
  }

  function Entry(request: BleCommandRequest, saves: bool, response: Bytes): CachedResponse {
    CachedResponse(true, saves, request, if saves then [] else response)
  }

  lemma AfterInRange(place: nat)
    requires place < 4
    ensures After(place, 1) < 4
  {}

  lemma AfterInRange2(next: nat, steps: nat)
    requires next < 4 && steps < 4
    ensures After(next, steps) < 4
  {}

  lemma OnlyHolder(cells: seq<CachedResponse>, place: nat)
    requires Distinct(cells) && place < |cells| && cells[place].valid
    ensures forall i :: 0 <= i < |cells| && cells[i].valid && i != place ==>
              cells[i].request.transaction_id != cells[place].request.transaction_id
  {}

  lemma OneIsFree(cells: seq<CachedResponse>, pending: int)
    requires |cells| == 4 && OnePending(cells, pending)
    ensures exists i :: 0 <= i < 4 && !Waits(cells[i])
  {
    assert pending != 0 ==> !Waits(cells[0]);
    assert pending == 0 ==> !Waits(cells[1]);
  }

  lemma DistinctDone(cells: seq<CachedResponse>, index: nat, response: Bytes)
    requires Distinct(cells) && index < |cells|
    ensures Distinct(cells[index := cells[index].(pending := false, response := response)])
  {}

  // Three saves whose ends were never told leave one place.  Then a request is
  // carried out twice with a single other one in between, and after a fourth such
  // save every new request is dropped.
  method LostSaves(s: seq<BleCommandRequest>, a: BleCommandRequest, b: BleCommandRequest, response: Bytes)
    returns (c: RetryCache, outcomes: seq<Outcome>)
    requires |s| == 4 && forall i :: 0 <= i < 4 ==> s[i].operation == BLE_OPERATION_SAVE_CONFIG
    requires forall i, j :: 0 <= i < j < 4 ==> s[i].transaction_id != s[j].transaction_id
    requires a.transaction_id != b.transaction_id
    requires forall i :: 0 <= i < 4 ==>
              s[i].transaction_id != a.transaction_id && s[i].transaction_id != b.transaction_id
    ensures fresh(c) && c.Valid() && c.executed == s[..3] + [a, b, a] + s[3..]
    ensures outcomes == [Executed(response), Executed(response), Executed(response), Dropped]
  {
    hide Spaced, Distinct, OnePending, Placed, Turned, RetryCache.Kept, RetryCache.Valid;
    ghost var free, q;
    c, free := ThreeSaves(s);
    ghost var three := c.cache[..];
    var first, other, again, done;
    first, q := HandleNew(c, a, false, response, free);
    other, q := HandleNew(c, b, false, response, free);
    assert c.cache[..] == three[free := Entry(b, false, response)];
    again, q := HandleNew(c, a, false, response, free);
    assert c.cache[..] == three[free := Entry(a, false, response)];
    done, q := HandleNew(c, s[3], true, [], free);
    ghost var four := c.cache[..];
    assert forall i :: 0 <= i < 4 ==> Waits(four[i]) && four[i] == c.cache[i];
    var last := c.HandleRequest(b, false, response, []);
    outcomes := [first, other, again, last];
  }

  method ThreeSaves(s: seq<BleCommandRequest>) returns (c: RetryCache, ghost free: nat)
    requires |s| == 4 && forall i :: 0 <= i < 4 ==> s[i].operation == BLE_OPERATION_SAVE_CONFIG
    requires forall i, j :: 0 <= i < j < 4 ==> s[i].transaction_id != s[j].transaction_id
    ensures fresh(c) && fresh(c.cache) && c.Valid() && c.executed == s[..3] && c.cache.Length == 4 && free < 4
    ensures !c.cache[free].valid
    ensures forall i :: 0 <= i < 4 && i != free ==> Waits(c.cache[i]) && c.cache[i].request in s[..3]
  {
    hide Spaced, Distinct, OnePending, Placed, Turned, RetryCache.Kept, RetryCache.Valid;
    c := new RetryCache();
    CacheIs(c);
    var done;
    ghost var p0, p1, p2;
    done, p0 := HandleNew(c, s[0], true, [], 0);
    done, p1 := HandleNew(c, s[1], true, [], if p0 == 0 then 1 else 0);
    done, p2 := HandleNew(c, s[2], true, [], if 0 !in [p0, p1] then 0 else if 1 !in [p0, p1] then 1 else 2);
    free := 6 - p0 - p1 - p2;
    ghost var cells := c.cache[..];
    assert forall i :: 0 <= i < 4 ==> cells[i] == c.cache[i];
  }

  // A request that the cache lacks, while a place is free.
  method HandleNew(c: RetryCache, request: BleCommandRequest, saves: bool, response: Bytes, ghost free: nat)
    returns (outcome: Outcome, ghost place: nat)
    requires c.Valid() && (saves ==> request.operation == BLE_OPERATION_SAVE_CONFIG)
    requires |c.cache[..]| == 4 && Lacks(c.cache[..], request) && free < 4 && !Waits(c.cache[..][free])
    modifies c, c.cache
    ensures c.Valid() && c.executed == old(c.executed) + [request]
    ensures outcome == Executed(if saves then [] else response)
    ensures place < 4 && !Waits(old(c.cache[..])[place])
    ensures c.cache[..] == old(c.cache[..])[place := Entry(request, saves, response)]
  {
    hide Spaced, Distinct, OnePending, Placed, Turned, RetryCache.Kept, RetryCache.Valid;
    ghost var cells := c.cache[..];
    assert forall i :: 0 <= i < 4 ==> cells[i] == c.cache[i];
    outcome := c.HandleRequest(request, saves, response, []);
    place :| 0 <= place < 4 && !Waits(cells[place]) && c.cache[..] == cells[place := Entry(request, saves, response)];
  }

  lemma CacheIs(c: RetryCache)
    requires c.Valid()
    ensures c.cache.Length == 4
  {}

  ghost predicate Lacks(cells: seq<CachedResponse>, request: BleCommandRequest) {
    forall i :: 0 <= i < |cells| && cells[i].valid ==> cells[i].request.transaction_id != request.transaction_id
  }

  lemma PlacesDiffer(cells: seq<CachedResponse>, executed: seq<BleCommandRequest>, places: seq<nat>, pending: int)
    requires Placed(cells, executed, places) && OnePending(cells, pending)
    ensures (|places| >= 2 ==> places[0] != places[1]) && -1 <= pending < |cells|
  {}

  // The newest place becomes the pending one.
  lemma NowPending(next: nat, places: seq<nat>, place: nat)
    requires Turned(next, -1, places) && |places| >= 1 && places[0] == place
    ensures Turned(next, place, places)
  {}

  lemma SaveDone(cells: seq<CachedResponse>, executed: seq<BleCommandRequest>, places: seq<nat>, next: nat, index: nat,
                 response: Bytes)
    requires |cells| == 4 && OnePending(cells, index) && Placed(cells, executed, places)
    requires Turned(next, index, places)
    ensures var after := cells[index := cells[index].(pending := false, response := response)];
            OnePending(after, -1) && Placed(after, executed, places) && Turned(next, -1, places)
  {}

  lemma SaveAnswered(cells: seq<CachedResponse>, executed: seq<BleCommandRequest>, places: seq<nat>,
                     answers: seq<Option<Bytes>>, index: nat, response: Bytes)
    requires OnePending(cells, index) && Placed(cells, executed, places) && Answered(cells, places, answers)
    ensures Answered(cells[index := cells[index].(pending := false, response := response)], places,
                     Closed(answers, response))
  {
    forall k | 0 <= k < |places| ensures Waits(cells[places[k]]) <==> places[k] == index {}
  }
}
