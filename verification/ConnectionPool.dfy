/** The MySQL connection pool: its slots, the handles in them, and any number of `acquire` calls
    interleaved. Slots are numbered; a handle is the number of the `mysql_init` that returned it. */
module ConnectionPool {
  import opened Wrappers

  datatype Config = Config(
    poolSize: int, connectTimeout: int, readTimeout: int, writeTimeout: int, acquireTimeoutMs: int,
    maxReconnectAttempts: int, idlePingInterval: int, idleCheckInterval: int)
  {
    predicate Positive() {
      && poolSize > 0 && connectTimeout > 0 && readTimeout > 0 && writeTimeout > 0 && acquireTimeoutMs > 0
      && maxReconnectAttempts >= 0 && idlePingInterval > 0 && idleCheckInterval > 0
    }
  }

  datatype Slot = Slot(mysql: Option<nat>, lastUsed: int, lastChecked: int, generation: nat)

  /** How one attempt to connect goes: no handle, a handle that is closed again, or a connection. */
  datatype Attempt = NoHandle | Refused | Connected

  /** Where an `acquire` call, or the guard it returned, stands. `Checking` goes through the idle
      candidates, `healed` once the first has been looked after; `Trying` has taken a slot from the
      queue; `Failed` could not make it healthy; `Holding` is a non-empty guard. */
  datatype Phase =
    | Checking(candidates: seq<nat>, healed: bool)
    | Waiting
    | Trying(slot: nat)
    | Failed(slot: nat)
    | Holding(slot: nat)
    | Done

  function Slots(phase: Phase): seq<nat> {
    match phase
    case Checking(candidates, _) => candidates
    case Trying(slot) => [slot]
    case Failed(slot) => [slot]
    case Holding(slot) => [slot]
    case _ => []
  }

  /** Open database handles, and the next handle number. */
  datatype Handles = Handles(open: set<nat>, next: nat) {
    /** `create_connection`. */
    function Create(attempt: Attempt): (Handles, Option<nat>) {
      match attempt
      case NoHandle => (this, None)
      case Refused => (Handles(open, next + 1), None)
      case Connected => (Handles(open + {next}, next + 1), Some(next))
    }

    /** `close_connection`. */
    function Close(mysql: Option<nat>): Handles {
      if mysql.Some? then this.(open := open - {mysql.value}) else this
    }
  }

  function AttemptAt(attempts: seq<Attempt>, i: nat): Attempt {
    if i < |attempts| then attempts[i] else NoHandle
  }

  datatype Pool = Pool(
    slots: seq<Slot>, available: seq<nat>, config: Config, lastIdleCheck: int, nextGeneration: nat,
    ready: bool, stopped: bool, handles: Handles)
  {
    /** The slots created before the first failed attempt, from the i-th on. */
    function CreateSlots(i: nat, attempts: seq<Attempt>, now: int): Pool
      decreases config.poolSize - i
    {
      if i >= config.poolSize then this
      else
        var (created, mysql) := handles.Create(AttemptAt(attempts, i));
        if mysql.None? then this.(handles := created)
        else
          this.(handles := created, nextGeneration := nextGeneration + 1,
                slots := slots + [Slot(mysql, now, now, nextGeneration)]).CreateSlots(i + 1, attempts, now)
    }

    function CloseAll(): Pool {
      this.(available := [], slots := [], handles := CloseSlots(handles, slots))
    }

    function Init(config: Config, attempts: seq<Attempt>, now: int): (Pool, bool) {
      if ready then (this, true)
      else
        var empty := this.(config := config, stopped := false, ready := false).CloseAll();
        if !config.Positive() then (empty.(stopped := true), false)
        else
          var created := empty.CreateSlots(0, attempts, now);
          if |created.slots| < config.poolSize then (created.CloseAll().(stopped := true), false)
          else (created.(available := Numbers(|created.slots|), lastIdleCheck := now, ready := true), true)
    }

    predicate Stale(slot: nat, now: int) {
      slot < |slots| && (slots[slot].mysql.None? || now - slots[slot].lastChecked >= config.idlePingInterval)
    }

    /** The idle candidates leave the queue; the others keep their order. */
    function IdleHealthCheck(now: int): (Pool, seq<nat>) {
      if stopped || available == [] then (this, [])
      else if lastIdleCheck != 0 && now - lastIdleCheck < config.idleCheckInterval then (this, [])
      else (this.(lastIdleCheck := now, available := Others(available, now)), Candidates(available, now))
    }

    function Candidates(queue: seq<nat>, now: int): seq<nat> {
      if queue == [] then []
      else Candidates(queue[..|queue| - 1], now) + if Stale(queue[|queue| - 1], now) then [queue[|queue| - 1]] else []
    }

    function Others(queue: seq<nat>, now: int): seq<nat> {
      if queue == [] then []
      else Others(queue[..|queue| - 1], now) + if Stale(queue[|queue| - 1], now) then [] else [queue[|queue| - 1]]
    }

    /** The attempts from the i-th on, until one connects. */
    function Retry(slot: nat, i: nat, attempts: seq<Attempt>, now: int): (Pool, bool)
      requires slot < |slots|
      decreases config.maxReconnectAttempts - i
    {
      if i >= config.maxReconnectAttempts then (this, false)
      else
        var (created, mysql) := handles.Create(AttemptAt(attempts, i));
        if mysql.None? then this.(handles := created).Retry(slot, i + 1, attempts, now)
        else (this.(handles := created, nextGeneration := nextGeneration + 1,
                    slots := slots[slot := Slot(mysql, now, now, nextGeneration)]), true)
    }

    function Reconnect(slot: nat, attempts: seq<Attempt>, now: int): (Pool, bool)
      requires slot < |slots|
    {
      this.(handles := handles.Close(slots[slot].mysql), slots := slots[slot := slots[slot].(mysql := None)])
          .Retry(slot, 0, attempts, now)
    }

    /** `pings` is what `mysql_ping` would say. */
    function EnsureHealthy(slot: nat, pings: bool, attempts: seq<Attempt>, now: int): (Pool, bool)
      requires slot < |slots|
    {
      if slots[slot].mysql.Some? && now - slots[slot].lastChecked < config.idlePingInterval then (this, true)
      else if slots[slot].mysql.Some? && pings then (this.(slots := slots[slot := slots[slot].(lastChecked := now)]), true)
      else Reconnect(slot, attempts, now)
    }

    function Release(slot: nat, now: int): Pool
      requires slot < |slots|
    {
      if stopped then this.(handles := handles.Close(slots[slot].mysql), slots := slots[slot := slots[slot].(mysql := None)])
      else this.(slots := slots[slot := slots[slot].(lastUsed := now)], available := available + [slot])
    }

    function Shutdown(): Pool {
      if stopped && slots == [] then this else this.(stopped := true, ready := false).CloseAll()
    }
  }

  function CloseSlots(handles: Handles, slots: seq<Slot>): Handles {
    if slots == [] then handles else CloseSlots(handles, slots[..|slots| - 1]).Close(slots[|slots| - 1].mysql)
  }

  function Numbers(n: nat): seq<nat> {
    seq(n, i => i)
  }

  // ------------------------------------------------------------ interleavings

  datatype System = System(pool: Pool, calls: map<nat, Phase>)

  datatype Step =
    | Init(config: Config, attempts: seq<Attempt>, now: int)
    | Begin(call: nat, now: int)
    | Heal(call: nat, pings: bool, attempts: seq<Attempt>, now: int)
    | PutBack(call: nat, now: int)
    | Take(call: nat)
    | GiveUp(call: nat)
    | Move(from: nat, into: nat)
    | Shutdown

  /** `Init` and `Shutdown` only while no call or guard has a slot. A wait ends without a slot when the
      queue is still empty, or the pool has stopped. `Move` is a move into an empty guard; a move
      assignment to a full one puts its slot back first. */
  predicate Enabled(s: System, step: Step) {
    match step
    case Init(_, _, _) => NothingOut(s.calls)
    case Shutdown => NothingOut(s.calls)
    case Begin(c, _) => c !in s.calls
    case Heal(c, _, _, _) => c in s.calls && (s.calls[c].Trying? || Checks(s.calls[c], false))
    case PutBack(c, _) => c in s.calls && (s.calls[c].Failed? || s.calls[c].Holding? || Checks(s.calls[c], true))
    case Take(c) => c in s.calls && s.calls[c].Waiting? && !s.pool.stopped && s.pool.available != []
    case GiveUp(c) => c in s.calls && s.calls[c].Waiting? && (s.pool.stopped || s.pool.available == [])
    case Move(c, d) => c in s.calls && s.calls[c].Holding? && (d in s.calls ==> s.calls[d].Done?) && c != d
  }

  predicate NothingOut(calls: map<nat, Phase>) {
    forall c :: c in calls ==> Slots(calls[c]) == []
  }

  predicate Checks(phase: Phase, healed: bool) {
    phase.Checking? && phase.candidates != [] && phase.healed == healed
  }

  function NextCheck(candidates: seq<nat>): Phase {
    if candidates == [] then Waiting else Checking(candidates, false)
  }

  predicate SlotsExist(s: System) {
    forall c :: c in s.calls ==> forall i :: 0 <= i < |Slots(s.calls[c])| ==> Slots(s.calls[c])[i] < |s.pool.slots|
  }

  function Apply(s: System, step: Step): System
    requires Enabled(s, step) && SlotsExist(s)
  {
    match step
    case Init(config, attempts, now) => s.(pool := s.pool.Init(config, attempts, now).0)
    case Shutdown => s.(pool := s.pool.Shutdown())
    case Begin(c, now) =>
      var (pool, candidates) := s.pool.IdleHealthCheck(now);
      System(pool, s.calls[c := NextCheck(candidates)])
    case Heal(c, pings, attempts, now) =>
      var (pool, ok) := s.pool.EnsureHealthy(Slots(s.calls[c])[0], pings, attempts, now);
      var slot := Slots(s.calls[c])[0];
      System(pool, s.calls[c := if s.calls[c].Checking? then s.calls[c].(healed := true)
                                else if ok then Holding(slot) else Failed(slot)])
    case PutBack(c, now) =>
      System(s.pool.Release(Slots(s.calls[c])[0], now),
             s.calls[c := if s.calls[c].Checking? then NextCheck(s.calls[c].candidates[1..]) else Done])
    case Take(c) =>
      System(s.pool.(available := s.pool.available[1..]), s.calls[c := Trying(s.pool.available[0])])
    case GiveUp(c) => s.(calls := s.calls[c := Done])
    case Move(c, d) => s.(calls := s.calls[c := Done][d := s.calls[c]])
  }

  // ------------------------------------------------------------ what the pool keeps

  /** The open handles are exactly those in the slots, each in one slot. */
  ghost predicate HandlesMatch(slots: seq<Slot>, handles: Handles) {
    && (forall i :: 0 <= i < |slots| && slots[i].mysql.Some? ==> slots[i].mysql.value in handles.open)
    && (forall i, j :: 0 <= i < j < |slots| && slots[i].mysql.Some? ==> slots[i].mysql != slots[j].mysql)
    && (forall h :: h in handles.open ==> h < handles.next && exists i :: 0 <= i < |slots| && slots[i].mysql == Some(h))
  }

  /** No two slots have the same connection generation. */
  ghost predicate GenerationsDiffer(slots: seq<Slot>, next: nat) {
    && (forall i :: 0 <= i < |slots| ==> slots[i].generation < next)
    && (forall i, j :: 0 <= i < j < |slots| ==> slots[i].generation != slots[j].generation)
  }

  ghost predicate Kept(pool: Pool) {
    && HandlesMatch(pool.slots, pool.handles)
    && GenerationsDiffer(pool.slots, pool.nextGeneration)
  }

  lemma AppendedHandle(slots: seq<Slot>, handles: Handles, slot: Slot)
    requires HandlesMatch(slots, handles) && slot.mysql == Some(handles.next)
    ensures HandlesMatch(slots + [slot], Handles(handles.open + {handles.next}, handles.next + 1))
  {
    var more, after := slots + [slot], Handles(handles.open + {handles.next}, handles.next + 1);
    forall h | h in after.open ensures h < after.next && exists i :: 0 <= i < |more| && more[i].mysql == Some(h) {
      if h == handles.next {
        assert more[|slots|].mysql == Some(h);
      } else {
        var i :| 0 <= i < |slots| && slots[i].mysql == Some(h);
        assert more[i].mysql == Some(h);
      }
    }
  }

  lemma EmptiedHandle(slots: seq<Slot>, handles: Handles, i: nat, slot: Slot)
    requires HandlesMatch(slots, handles) && i < |slots| && slot.mysql == None
    ensures HandlesMatch(slots[i := slot], handles.Close(slots[i].mysql))
  {
    var fewer, after := slots[i := slot], handles.Close(slots[i].mysql);
    forall h | h in after.open ensures h < after.next && exists j :: 0 <= j < |fewer| && fewer[j].mysql == Some(h) {
      var j :| 0 <= j < |slots| && slots[j].mysql == Some(h);
      assert fewer[j].mysql == Some(h);
    }
  }

  lemma FilledHandle(slots: seq<Slot>, handles: Handles, i: nat, slot: Slot)
    requires HandlesMatch(slots, handles) && i < |slots| && slots[i].mysql == None && slot.mysql == Some(handles.next)
    ensures HandlesMatch(slots[i := slot], Handles(handles.open + {handles.next}, handles.next + 1))
  {
    var more, after := slots[i := slot], Handles(handles.open + {handles.next}, handles.next + 1);
    forall h | h in after.open ensures h < after.next && exists j :: 0 <= j < |more| && more[j].mysql == Some(h) {
      if h == handles.next {
        assert more[i].mysql == Some(h);
      } else {
        var j :| 0 <= j < |slots| && slots[j].mysql == Some(h);
        assert more[j].mysql == Some(h);
      }
    }
  }

  lemma SameHandles(slots: seq<Slot>, handles: Handles, i: nat, slot: Slot)
    requires HandlesMatch(slots, handles) && i < |slots| && slot.mysql == slots[i].mysql
    ensures HandlesMatch(slots[i := slot], handles)
  {
    var same := slots[i := slot];
    forall h | h in handles.open ensures exists j :: 0 <= j < |same| && same[j].mysql == Some(h) {
      var j :| 0 <= j < |slots| && slots[j].mysql == Some(h);
      assert same[j].mysql == Some(h);
    }
  }

  lemma MoreNumbers(slots: seq<Slot>, handles: Handles)
    requires HandlesMatch(slots, handles)
    ensures HandlesMatch(slots, handles.(next := handles.next + 1))
  {
  }

  /** The pool is the same apart from slot `i`, the handles and the generation counter. */
  ghost predicate OnlySlot(pool: Pool, after: Pool, i: nat) {
    && after == pool.(slots := after.slots, handles := after.handles, nextGeneration := after.nextGeneration)
    && |after.slots| == |pool.slots|
    && forall j :: 0 <= j < |pool.slots| && j != i ==> after.slots[j] == pool.slots[j]
  }

  lemma {:induction false} RetryKeeps(pool: Pool, slot: nat, i: nat, attempts: seq<Attempt>, now: int)
    requires slot < |pool.slots| && Kept(pool) && pool.slots[slot].mysql == None
    ensures var (after, ok) := pool.Retry(slot, i, attempts, now);
            Kept(after) && OnlySlot(pool, after, slot) && (ok <==> after.slots[slot].mysql.Some?)
    decreases pool.config.maxReconnectAttempts - i
  {
    hide HandlesMatch;
    if i < pool.config.maxReconnectAttempts {
      var (created, mysql) := pool.handles.Create(AttemptAt(attempts, i));
      if mysql.None? {
        MoreNumbers(pool.slots, pool.handles);
        RetryKeeps(pool.(handles := created), slot, i + 1, attempts, now);
      } else {
        FilledHandle(pool.slots, pool.handles, slot, Slot(mysql, now, now, pool.nextGeneration));
      }
    }
  }

  /** Looking after a slot touches no other one, leaks no handle, and reports success exactly when the
      slot has a handle afterwards. */
  lemma HealKeeps(pool: Pool, slot: nat, pings: bool, attempts: seq<Attempt>, now: int)
    requires slot < |pool.slots| && Kept(pool)
    ensures var (after, ok) := pool.EnsureHealthy(slot, pings, attempts, now);
            Kept(after) && OnlySlot(pool, after, slot) && (ok <==> after.slots[slot].mysql.Some?)
  {
    hide HandlesMatch, Pool.Retry;
    var closed := pool.slots[slot].(mysql := None);
    EmptiedHandle(pool.slots, pool.handles, slot, closed);
    RetryKeeps(pool.(handles := pool.handles.Close(pool.slots[slot].mysql), slots := pool.slots[slot := closed]),
               slot, 0, attempts, now);
    SameHandles(pool.slots, pool.handles, slot, pool.slots[slot].(lastChecked := now));
  }

  // ------------------------------------------------------------ when a slot is healthy

  /** One of the attempts that are made connects. */
  ghost predicate CanConnect(attempts: seq<Attempt>, first: nat, limit: int) {
    exists i: nat :: first <= i < limit && AttemptAt(attempts, i).Connected?
  }

  /** The slot's handle need not be looked at again: it was, less than the ping interval ago. */
  predicate CheckedLately(pool: Pool, slot: nat, now: int)
    requires slot < |pool.slots|
  {
    pool.slots[slot].mysql.Some? && now - pool.slots[slot].lastChecked < pool.config.idlePingInterval
  }

  /** The slot has a handle that works, as far as the pool can know, or can be given one. */
  ghost predicate CanServe(pool: Pool, slot: nat, pings: bool, attempts: seq<Attempt>, now: int)
    requires slot < |pool.slots|
  {
    || CheckedLately(pool, slot, now) || (pool.slots[slot].mysql.Some? && pings)
    || CanConnect(attempts, 0, pool.config.maxReconnectAttempts)
  }

  /** The slot is usable: its handle is the old one, checked lately or alive, or a new one with a new
      generation; and it needs no further check now. */
  ghost predicate Usable(pool: Pool, after: Pool, slot: nat, pings: bool, now: int)
    requires slot < |pool.slots| && slot < |after.slots|
  {
    var s, s' := pool.slots[slot], after.slots[slot];
    && s'.mysql.Some?
    && (if s'.mysql == s.mysql then
          (CheckedLately(pool, slot, now) && s'.lastChecked == s.lastChecked) || (pings && s'.lastChecked == now)
        else
          s'.mysql.value >= pool.handles.next && s'.generation >= pool.nextGeneration
          && s'.lastChecked == s'.lastUsed == now)
  }

  lemma {:induction false} RetryIsExact(pool: Pool, slot: nat, i: nat, attempts: seq<Attempt>, now: int)
    requires slot < |pool.slots| && pool.slots[slot].mysql == None
    ensures var (after, ok) := pool.Retry(slot, i, attempts, now);
            && (ok <==> CanConnect(attempts, i, pool.config.maxReconnectAttempts))
            && |after.slots| == |pool.slots|
            && after.handles.next >= pool.handles.next && after.nextGeneration >= pool.nextGeneration
            && (forall h :: h in after.handles.open && h < pool.handles.next ==> h in pool.handles.open)
            && (ok ==> Usable(pool, after, slot, false, now))
            && (!ok ==> after.slots == pool.slots)
    decreases pool.config.maxReconnectAttempts - i
  {
    if i < pool.config.maxReconnectAttempts && !AttemptAt(attempts, i).Connected? {
      RetryIsExact(pool.(handles := pool.handles.Create(AttemptAt(attempts, i)).0), slot, i + 1, attempts, now);
    }
  }

  /** Looking after a slot. If it was checked lately nothing happens. If its handle answers the ping, that
      is noted. Otherwise the old handle is closed, and it succeeds exactly if one of the attempts
      allowed connects. So it succeeds exactly if the slot can serve, and then the slot is usable. */
  lemma HealIsExact(pool: Pool, slot: nat, pings: bool, attempts: seq<Attempt>, now: int)
    requires slot < |pool.slots| && Kept(pool)
    ensures var (after, ok) := pool.EnsureHealthy(slot, pings, attempts, now);
            var s := pool.slots[slot];
            && |after.slots| == |pool.slots|
            && after.handles.next >= pool.handles.next && after.nextGeneration >= pool.nextGeneration
            && (ok <==> CanServe(pool, slot, pings, attempts, now))
            && (ok ==> Usable(pool, after, slot, pings, now))
            && (!ok ==> after.slots[slot].mysql == None)
            && (CheckedLately(pool, slot, now) ==> after == pool)
            && (s.mysql.Some? && pings ==> after.slots[slot].mysql == s.mysql && after.handles == pool.handles)
            && (s.mysql.Some? && !pings && !CheckedLately(pool, slot, now) ==>
                  s.mysql.value !in after.handles.open && after.slots[slot].mysql != s.mysql)
  {
    hide Pool.Retry;
    var s := pool.slots[slot];
    var closed := pool.(handles := pool.handles.Close(s.mysql), slots := pool.slots[slot := s.(mysql := None)]);
    RetryIsExact(closed, slot, 0, attempts, now);
  }

  lemma ReleaseKeeps(pool: Pool, slot: nat, now: int)
    requires slot < |pool.slots| && Kept(pool) && !pool.stopped
    ensures Kept(pool.Release(slot, now))
  {
    hide HandlesMatch;
    SameHandles(pool.slots, pool.handles, slot, pool.slots[slot].(lastUsed := now));
  }

  function HandlesIn(slots: seq<Slot>): set<nat> {
    set i | 0 <= i < |slots| && slots[i].mysql.Some? :: slots[i].mysql.value
  }

  lemma {:induction false} CloseSlotsCloses(handles: Handles, slots: seq<Slot>)
    ensures CloseSlots(handles, slots).open == handles.open - HandlesIn(slots)
    ensures CloseSlots(handles, slots).next == handles.next
  {
    if slots != [] {
      var front, last := slots[..|slots| - 1], slots[|slots| - 1];
      CloseSlotsCloses(handles, front);
      assert HandlesIn(slots) == HandlesIn(front) + (if last.mysql.Some? then {last.mysql.value} else {}) by {
        assert forall i :: 0 <= i < |front| ==> front[i] == slots[i];
        forall h | h in HandlesIn(front) ensures h in HandlesIn(slots) {
          var i :| 0 <= i < |front| && front[i].mysql == Some(h);
          assert slots[i].mysql == Some(h);
        }
      }
    }
  }

  lemma CloseAllKeeps(pool: Pool)
    requires Kept(pool)
    ensures Kept(pool.CloseAll()) && pool.CloseAll().handles.open == {}
  {
    CloseSlotsCloses(pool.handles, pool.slots);
    forall h | h in pool.handles.open ensures h in HandlesIn(pool.slots) {
      var i :| 0 <= i < |pool.slots| && pool.slots[i].mysql == Some(h);
      assert pool.slots[i].mysql.value == h;
    }
  }

  lemma {:induction false} CreateKeeps(pool: Pool, i: nat, attempts: seq<Attempt>, now: int)
    requires Kept(pool) && |pool.slots| == i <= pool.config.poolSize
    requires forall j :: 0 <= j < |pool.slots| ==> pool.slots[j].mysql.Some?
    ensures var after := pool.CreateSlots(i, attempts, now);
            && Kept(after) && |after.slots| <= pool.config.poolSize
            && after == pool.(slots := after.slots, handles := after.handles, nextGeneration := after.nextGeneration)
            && (forall j :: 0 <= j < |after.slots| ==> after.slots[j].mysql.Some?)
    decreases pool.config.poolSize - i
  {
    hide HandlesMatch;
    if i < pool.config.poolSize {
      var (created, mysql) := pool.handles.Create(AttemptAt(attempts, i));
      if mysql.None? {
        MoreNumbers(pool.slots, pool.handles);
      } else {
        var slot := Slot(mysql, now, now, pool.nextGeneration);
        AppendedHandle(pool.slots, pool.handles, slot);
        CreateKeeps(pool.(handles := created, nextGeneration := pool.nextGeneration + 1, slots := pool.slots + [slot]),
                    i + 1, attempts, now);
      }
    }
  }

  ghost predicate Shaped(pool: Pool) {
    && Kept(pool)
    && pool.stopped == !pool.ready
    && (pool.ready ==> pool.config.Positive() && |pool.slots| == pool.config.poolSize)
    && (!pool.ready ==> pool.slots == [] && pool.available == [] && pool.handles.open == {})
  }

  /** A successful `init` fills every slot and queues them all; a failed one leaks no handle. */
  lemma InitKeeps(pool: Pool, config: Config, attempts: seq<Attempt>, now: int)
    requires Shaped(pool) && !pool.ready
    ensures var (after, ok) := pool.Init(config, attempts, now);
            && Shaped(after) && after.ready == ok
            && (ok ==> after.available == Numbers(|after.slots|) && |after.handles.open| == config.poolSize)
            && (ok ==> forall i :: 0 <= i < |after.slots| ==> after.slots[i].mysql.Some?)
  {
    hide HandlesMatch, GenerationsDiffer, Pool.CreateSlots, Pool.CloseAll;
    var empty := pool.(config := config, stopped := false, ready := false).CloseAll();
    CloseAllKeeps(pool.(config := config, stopped := false, ready := false));
    CloseAllEmpties(pool.(config := config, stopped := false, ready := false));
    if config.Positive() {
      CreateKeeps(empty, 0, attempts, now);
      var created := empty.CreateSlots(0, attempts, now);
      CloseAllKeeps(created);
      CloseAllEmpties(created);
      if |created.slots| == config.poolSize {
        OneHandleEach(created);
      }
    }
  }

  lemma {:induction false} CreateIsExact(pool: Pool, i: nat, attempts: seq<Attempt>, now: int)
    requires |pool.slots| == i <= pool.config.poolSize
    requires forall j :: 0 <= j < |pool.slots| ==> pool.slots[j].lastUsed == pool.slots[j].lastChecked == now
    ensures var after := pool.CreateSlots(i, attempts, now);
            && (|after.slots| == pool.config.poolSize <==> AllConnect(attempts, i, pool.config.poolSize))
            && (forall j :: 0 <= j < |after.slots| ==> after.slots[j].lastUsed == after.slots[j].lastChecked == now)
    decreases pool.config.poolSize - i
  {
    if i < pool.config.poolSize && AttemptAt(attempts, i).Connected? {
      var (created, mysql) := pool.handles.Create(AttemptAt(attempts, i));
      var slot := Slot(mysql, now, now, pool.nextGeneration);
      var more := pool.(handles := created, nextGeneration := pool.nextGeneration + 1, slots := pool.slots + [slot]);
      CreateIsExact(more, i + 1, attempts, now);
      assert AllConnect(attempts, i, pool.config.poolSize) <==> AllConnect(attempts, i + 1, pool.config.poolSize);
    }
  }

  predicate AllConnect(attempts: seq<Attempt>, first: nat, limit: int) {
    forall i: nat :: first <= i < limit ==> AttemptAt(attempts, i).Connected?
  }

  /** When `init` succeeds: on a pool that is ready already, or with a sensible configuration when the
      first `poolSize` attempts all connect. Then every slot counts as used and checked now, with the
      configuration that was asked for. */
  lemma InitIsExact(pool: Pool, config: Config, attempts: seq<Attempt>, now: int)
    requires Shaped(pool)
    ensures var (after, ok) := pool.Init(config, attempts, now);
            && (ok <==>
                  || pool.ready
                  || (config.poolSize > 0 && config.connectTimeout > 0 && config.readTimeout > 0
                      && config.writeTimeout > 0 && config.acquireTimeoutMs > 0 && config.maxReconnectAttempts >= 0
                      && config.idlePingInterval > 0 && config.idleCheckInterval > 0
                      && AllConnect(attempts, 0, config.poolSize)))
            && (pool.ready ==> after == pool)
            && (!pool.ready ==> after.config == config)
            && (ok && !pool.ready ==> after.lastIdleCheck == now)
            && (ok && !pool.ready ==>
                  forall j :: 0 <= j < |after.slots| ==> after.slots[j].lastUsed == after.slots[j].lastChecked == now)
  {
    hide Kept, Pool.CreateSlots, Pool.CloseAll;
    if !pool.ready {
      var empty := pool.(config := config, stopped := false, ready := false).CloseAll();
      CloseAllEmpties(pool.(config := config, stopped := false, ready := false));
      if config.Positive() {
        CreateIsExact(empty, 0, attempts, now);
        CreatesAtMost(empty, 0, attempts, now);
        CloseAllEmpties(empty.CreateSlots(0, attempts, now));
      }
    }
  }

  lemma {:induction false} CreatesAtMost(pool: Pool, i: nat, attempts: seq<Attempt>, now: int)
    requires |pool.slots| == i <= pool.config.poolSize
    ensures var after := pool.CreateSlots(i, attempts, now);
            |after.slots| <= pool.config.poolSize && after.config == pool.config
    decreases pool.config.poolSize - i
  {
    if i < pool.config.poolSize && AttemptAt(attempts, i).Connected? {
      var (created, mysql) := pool.handles.Create(AttemptAt(attempts, i));
      var slot := Slot(mysql, now, now, pool.nextGeneration);
      CreatesAtMost(pool.(handles := created, nextGeneration := pool.nextGeneration + 1, slots := pool.slots + [slot]),
                    i + 1, attempts, now);
    }
  }

  lemma CloseAllEmpties(pool: Pool)
    ensures pool.CloseAll() == pool.(slots := [], available := [], handles := pool.CloseAll().handles)
  {
  }

  lemma OneHandleEach(pool: Pool)
    requires Kept(pool) && forall i :: 0 <= i < |pool.slots| ==> pool.slots[i].mysql.Some?
    ensures |pool.handles.open| == |pool.slots|
  {
    CountHandles(pool.slots);
    assert pool.handles.open == HandlesIn(pool.slots) by {
      forall h | h in pool.handles.open ensures h in HandlesIn(pool.slots) {
        var i :| 0 <= i < |pool.slots| && pool.slots[i].mysql == Some(h);
        assert pool.slots[i].mysql.value == h;
      }
    }
  }

  lemma {:induction false} CountHandles(slots: seq<Slot>)
    requires forall i :: 0 <= i < |slots| ==> slots[i].mysql.Some?
    requires forall i, j :: 0 <= i < j < |slots| ==> slots[i].mysql != slots[j].mysql
    ensures |HandlesIn(slots)| == |slots|
  {
    if slots == [] {
      assert HandlesIn(slots) == {};
    } else {
      var front, last := slots[..|slots| - 1], slots[|slots| - 1].mysql.value;
      CountHandles(front);
      assert HandlesIn(slots) == HandlesIn(front) + {last} by {
        forall h | h in HandlesIn(slots) ensures h in HandlesIn(front) + {last} {
          var i :| 0 <= i < |slots| && slots[i].mysql == Some(h);
          if i < |front| { assert front[i].mysql.value == h; }
        }
        forall h | h in HandlesIn(front) + {last} ensures h in HandlesIn(slots) {
          if h != last {
            var i :| 0 <= i < |front| && front[i].mysql == Some(h);
            assert slots[i].mysql.value == h;
          } else {
            assert slots[|slots| - 1].mysql.value == h;
          }
        }
      }
    }
  }

  // ------------------------------------------------------------ who has which slot

  predicate NoDuplicates(s: seq<nat>) {
    forall i, j :: 0 <= i < j < |s| ==> s[i] != s[j]
  }

  ghost predicate Out(calls: map<nat, Phase>, slot: nat) {
    exists c :: c in calls && slot in Slots(calls[c])
  }

  /** Every slot is in exactly one place, once: the queue, or one call or guard. */
  ghost predicate Partition(n: nat, available: seq<nat>, calls: map<nat, Phase>) {
    && NoDuplicates(available)
    && (forall c :: c in calls ==> NoDuplicates(Slots(calls[c])))
    && (forall c, slot :: c in calls && slot in Slots(calls[c]) ==> slot !in available)
    && (forall c, d, slot :: c in calls && d in calls && c != d && slot in Slots(calls[c]) ==> slot !in Slots(calls[d]))
    && (forall slot: nat :: slot < n <==> slot in available || Out(calls, slot))
  }

  function HeldBy(calls: map<nat, Phase>, c: nat): seq<nat> {
    if c in calls then Slots(calls[c]) else []
  }

  /** Slots changed hands between the queue and one call. */
  lemma Rearranged(n: nat, available: seq<nat>, calls: map<nat, Phase>, available': seq<nat>, c: nat, phase: Phase)
    requires Partition(n, available, calls)
    requires NoDuplicates(available') && NoDuplicates(Slots(phase)) && forall x :: x in Slots(phase) ==> x !in available'
    requires forall x :: x in available' || x in Slots(phase) <==> x in available || x in HeldBy(calls, c)
    ensures Partition(n, available', calls[c := phase])
  {
    var after := calls[c := phase];
    forall slot: nat ensures slot < n <==> slot in available' || Out(after, slot) {
      if Out(calls, slot) {
        var d :| d in calls && slot in Slots(calls[d]);
        if d != c { assert d in after && slot in Slots(after[d]); } else { assert slot in HeldBy(calls, c); }
      }
      if slot in Slots(phase) { assert c in after && slot in Slots(after[c]); }
      if Out(after, slot) {
        var d :| d in after && slot in Slots(after[d]);
        if d != c { assert d in calls && slot in Slots(calls[d]); }
      }
      if c in calls && slot in Slots(calls[c]) { assert Out(calls, slot); }
    }
  }

  lemma MovedSlot(n: nat, available: seq<nat>, calls: map<nat, Phase>, c: nat, d: nat)
    requires Partition(n, available, calls) && c in calls && c != d && HeldBy(calls, d) == []
    ensures Partition(n, available, calls[c := Done][d := calls[c]])
  {
    var after := calls[c := Done][d := calls[c]];
    forall slot: nat ensures Out(calls, slot) <==> Out(after, slot) {
      if Out(calls, slot) {
        var e :| e in calls && slot in Slots(calls[e]);
        var to := if e == c then d else e;
        assert to in after && slot in Slots(after[to]);
      }
      if Out(after, slot) {
        var e :| e in after && slot in Slots(after[e]);
        var from := if e == d then c else e;
        assert from in calls && slot in Slots(calls[from]);
      }
    }
  }

  lemma {:induction false} CandidatesSplit(pool: Pool, queue: seq<nat>, now: int)
    requires NoDuplicates(queue)
    ensures NoDuplicates(pool.Candidates(queue, now)) && NoDuplicates(pool.Others(queue, now))
    ensures forall x :: x in pool.Candidates(queue, now) <==> x in queue && pool.Stale(x, now)
    ensures forall x :: x in pool.Others(queue, now) <==> x in queue && !pool.Stale(x, now)
  {
    hide Pool.Stale;
    if queue != [] {
      var front, last := queue[..|queue| - 1], queue[|queue| - 1];
      CandidatesSplit(pool, front, now);
      LastIsNew(front, last, queue);
      AppendNew(pool.Candidates(front, now), last);
      AppendNew(pool.Others(front, now), last);
    }
  }

  lemma LastIsNew(front: seq<nat>, last: nat, queue: seq<nat>)
    requires queue == front + [last] && NoDuplicates(queue)
    ensures NoDuplicates(front) && last !in front && forall x :: x in queue <==> x in front || x == last
  {
    assert forall i :: 0 <= i < |front| ==> queue[i] == front[i];
    assert queue[|front|] == last;
  }

  lemma AppendNew(s: seq<nat>, x: nat)
    requires NoDuplicates(s)
    ensures x !in s ==> NoDuplicates(s + [x])
    ensures forall y :: y in s + [x] <==> y in s || y == x
  {
  }

  lemma FirstAndOthers(s: seq<nat>)
    requires s != [] && NoDuplicates(s)
    ensures NoDuplicates(s[1..]) && s[0] !in s[1..] && forall x :: x in s <==> x == s[0] || x in s[1..]
  {
    assert s == [s[0]] + s[1..];
    assert forall i :: 0 <= i < |s[1..]| ==> s[1..][i] == s[i + 1];
  }

  // ------------------------------------------------------------ runs

  /** A guard that is not empty has a handle. */
  ghost predicate HoldersConnected(s: System) {
    forall c :: c in s.calls && s.calls[c].Holding? ==>
      s.calls[c].slot < |s.pool.slots| && s.pool.slots[s.calls[c].slot].mysql.Some?
  }

  ghost predicate Invariant(s: System) {
    Shaped(s.pool) && Partition(|s.pool.slots|, s.pool.available, s.calls) && HoldersConnected(s)
  }

  lemma SlotsAreThere(s: System)
    requires Partition(|s.pool.slots|, s.pool.available, s.calls)
    ensures SlotsExist(s)
    ensures forall i :: 0 <= i < |s.pool.available| ==> s.pool.available[i] < |s.pool.slots|
  {
    forall c, i | c in s.calls && 0 <= i < |Slots(s.calls[c])| ensures Slots(s.calls[c])[i] < |s.pool.slots| {
      assert Slots(s.calls[c])[i] in Slots(s.calls[c]);
      assert Out(s.calls, Slots(s.calls[c])[i]);
    }
    assert forall i :: 0 <= i < |s.pool.available| ==> s.pool.available[i] in s.pool.available;
  }

  lemma BeginKeeps(s: System, c: nat, now: int)
    requires Invariant(s) && Enabled(s, Begin(c, now)) && SlotsExist(s)
    ensures Invariant(Apply(s, Begin(c, now)))
  {
    hide HandlesMatch, GenerationsDiffer, Pool.Candidates, Pool.Others, Out;
    var (pool, candidates) := s.pool.IdleHealthCheck(now);
    CandidatesSplit(s.pool, s.pool.available, now);
    Rearranged(|s.pool.slots|, s.pool.available, s.calls, pool.available, c, NextCheck(candidates));
  }

  lemma StillConnected(s: System, after: System, slot: nat, c: nat)
    requires HoldersConnected(s) && SlotsExist(s) && c in s.calls && slot in Slots(s.calls[c])
    requires Partition(|s.pool.slots|, s.pool.available, s.calls)
    requires |after.pool.slots| == |s.pool.slots|
    requires forall j :: 0 <= j < |s.pool.slots| && j != slot ==> after.pool.slots[j].mysql == s.pool.slots[j].mysql
    requires c in after.calls && after.calls == s.calls[c := after.calls[c]]
    requires after.calls[c].Holding? ==>
               after.calls[c].slot == slot < |s.pool.slots| && after.pool.slots[slot].mysql.Some?
    ensures HoldersConnected(after)
  {
    forall d | d in after.calls && after.calls[d].Holding? && d != c
      ensures after.calls[d].slot < |after.pool.slots| && after.pool.slots[after.calls[d].slot].mysql.Some?
    {
      assert after.calls[d] == s.calls[d];
      assert s.calls[d].slot in Slots(s.calls[d]);
    }
  }

  lemma HealStepKeeps(s: System, c: nat, pings: bool, attempts: seq<Attempt>, now: int)
    requires Invariant(s) && Enabled(s, Heal(c, pings, attempts, now)) && SlotsExist(s)
    ensures Invariant(Apply(s, Heal(c, pings, attempts, now)))
  {
    hide Kept, HoldersConnected, Out, Pool.EnsureHealthy;
    var after, slot := Apply(s, Heal(c, pings, attempts, now)), Slots(s.calls[c])[0];
    HealKeeps(s.pool, slot, pings, attempts, now);
    assert Slots(after.calls[c]) == Slots(s.calls[c]);
    Rearranged(|s.pool.slots|, s.pool.available, s.calls, s.pool.available, c, after.calls[c]);
    StillConnected(s, after, slot, c);
  }

  lemma PutBackKeeps(s: System, c: nat, now: int)
    requires Invariant(s) && Enabled(s, PutBack(c, now)) && SlotsExist(s)
    ensures Invariant(Apply(s, PutBack(c, now)))
  {
    hide Kept, HoldersConnected, Out;
    var held := Slots(s.calls[c]);
    var after, slot := Apply(s, PutBack(c, now)), held[0];
    assert !s.pool.stopped by { NobodyOutWhenStopped(s, c); }
    ReleaseKeeps(s.pool, slot, now);
    FirstAndOthers(held);
    AppendNew(s.pool.available, slot);
    assert Slots(after.calls[c]) == held[1..];
    Rearranged(|s.pool.slots|, s.pool.available, s.calls, s.pool.available + [slot], c, after.calls[c]);
    StillConnected(s, after, slot, c);
  }

  lemma NobodyOutWhenStopped(s: System, c: nat)
    requires Invariant(s) && c in s.calls && Slots(s.calls[c]) != []
    ensures !s.pool.stopped
  {
    assert Slots(s.calls[c])[0] in Slots(s.calls[c]);
    assert Out(s.calls, Slots(s.calls[c])[0]);
  }

  lemma TakeKeeps(s: System, c: nat)
    requires Invariant(s) && Enabled(s, Take(c)) && SlotsExist(s)
    ensures Invariant(Apply(s, Take(c)))
  {
    hide HandlesMatch, GenerationsDiffer, Out;
    FirstAndOthers(s.pool.available);
    Rearranged(|s.pool.slots|, s.pool.available, s.calls, s.pool.available[1..], c, Trying(s.pool.available[0]));
  }

  lemma GiveUpKeeps(s: System, c: nat)
    requires Invariant(s) && Enabled(s, GiveUp(c))
    ensures Invariant(s.(calls := s.calls[c := Done]))
  {
    hide Kept, Out;
    Rearranged(|s.pool.slots|, s.pool.available, s.calls, s.pool.available, c, Done);
  }

  lemma InitStepKeeps(s: System, config: Config, attempts: seq<Attempt>, now: int)
    requires Invariant(s) && NothingOut(s.calls)
    ensures Invariant(s.(pool := s.pool.Init(config, attempts, now).0))
  {
    hide Kept, Pool.Init;
    if s.pool.ready {
      ReadyStays(s.pool, config, attempts, now);
    } else {
      InitKeeps(s.pool, config, attempts, now);
      AllAvailable(s.pool.Init(config, attempts, now).0, s.calls);
    }
  }

  lemma ReadyStays(pool: Pool, config: Config, attempts: seq<Attempt>, now: int)
    requires pool.ready
    ensures pool.Init(config, attempts, now) == (pool, true)
  {
  }

  lemma AllAvailable(pool: Pool, calls: map<nat, Phase>)
    requires NothingOut(calls) && pool.available == Numbers(|pool.slots|)
    ensures Partition(|pool.slots|, pool.available, calls)
  {
    forall slot: nat ensures slot < |pool.slots| <==> slot in pool.available {
      if slot < |pool.slots| { assert pool.available[slot] == slot; }
    }
  }

  lemma ShutdownKeeps(s: System)
    requires Invariant(s) && NothingOut(s.calls)
    ensures Invariant(s.(pool := s.pool.Shutdown()))
  {
    hide HandlesMatch, GenerationsDiffer, Pool.CloseAll;
    CloseAllKeeps(s.pool.(stopped := true, ready := false));
    CloseAllEmpties(s.pool.(stopped := true, ready := false));
    AllAvailable(s.pool.Shutdown(), s.calls);
  }

  // ------------------------------------------------------------ turns

  /** Slot `a` waits in front of slot `b`. */
  ghost predicate Before(queue: seq<nat>, a: nat, b: nat) {
    exists i, j :: 0 <= i < j < |queue| && queue[i] == a && queue[j] == b
  }

  lemma BeforeInLonger(queue: seq<nat>, last: nat, a: nat, b: nat)
    ensures Before(queue + [last], a, b) <==> Before(queue, a, b) || (a in queue && b == last)
  {
    var longer := queue + [last];
    if Before(queue, a, b) {
      var i, j :| 0 <= i < j < |queue| && queue[i] == a && queue[j] == b;
      assert longer[i] == a && longer[j] == b;
    }
    if a in queue && b == last {
      var i :| 0 <= i < |queue| && queue[i] == a;
      assert longer[i] == a && longer[|queue|] == b;
    }
    if Before(longer, a, b) {
      var i, j :| 0 <= i < j < |longer| && longer[i] == a && longer[j] == b;
      assert queue[i] == a && (j < |queue| ==> queue[j] == b);
    }
  }

  /** The split keeps the order on both sides. */
  lemma {:induction false} SplitKeepsOrder(pool: Pool, queue: seq<nat>, now: int, a: nat, b: nat)
    ensures Before(pool.Others(queue, now), a, b) <==>
            Before(queue, a, b) && !pool.Stale(a, now) && !pool.Stale(b, now)
    ensures Before(pool.Candidates(queue, now), a, b) <==>
            Before(queue, a, b) && pool.Stale(a, now) && pool.Stale(b, now)
  {
    hide Pool.Stale, Before;
    if queue == [] {
      assert forall x, y :: !Before([], x, y) by { NothingBefore(); }
    } else {
      var front, last := queue[..|queue| - 1], queue[|queue| - 1];
      SplitKeepsOrder(pool, front, now, a, b);
      assert queue == front + [last];
      BeforeInLonger(front, last, a, b);
      BeforeInLonger(pool.Others(front, now), last, a, b);
      BeforeInLonger(pool.Candidates(front, now), last, a, b);
      SplitHolds(pool, front, now, a);
      assert pool.Others(front, now) + [] == pool.Others(front, now);
      assert pool.Candidates(front, now) + [] == pool.Candidates(front, now);
    }
  }

  lemma NothingBefore()
    ensures forall x, y :: !Before([], x, y)
  {
  }

  lemma {:induction false} SplitHolds(pool: Pool, queue: seq<nat>, now: int, x: nat)
    ensures x in pool.Others(queue, now) <==> x in queue && !pool.Stale(x, now)
    ensures x in pool.Candidates(queue, now) <==> x in queue && pool.Stale(x, now)
  {
    hide Pool.Stale;
    if queue != [] {
      SplitHolds(pool, queue[..|queue| - 1], now, x);
      assert queue == queue[..|queue| - 1] + [queue[|queue| - 1]];
    }
  }

  /** It is time to look at the idle connections. */
  predicate CheckIsDue(pool: Pool, now: int) {
    !pool.stopped && (pool.lastIdleCheck == 0 || now - pool.lastIdleCheck >= pool.config.idleCheckInterval)
  }

  /** The idle check. When it is due, exactly the waiting slots without a handle, or not checked for the ping
      interval, are taken out, in their order; the others keep theirs. When it is not, nothing happens. */
  lemma IdleCheckIsExact(pool: Pool, now: int)
    ensures var (after, candidates) := pool.IdleHealthCheck(now);
            && (forall x :: x in candidates <==>
                  CheckIsDue(pool, now) && x in pool.available && x < |pool.slots| && !CheckedLately(pool, x, now))
            && (forall x :: x in after.available <==> x in pool.available && x !in candidates)
            && (forall a, b :: Before(candidates, a, b) <==>
                  Before(pool.available, a, b) && a in candidates && b in candidates)
            && (forall a, b :: Before(after.available, a, b) <==>
                  Before(pool.available, a, b) && a !in candidates && b !in candidates)
            && (CheckIsDue(pool, now) && pool.available != [] ==> after.lastIdleCheck == now)
            && after == pool.(available := after.available, lastIdleCheck := after.lastIdleCheck)
  {
    hide Before, Pool.Candidates, Pool.Others;
    NothingBefore();
    forall x ensures x in pool.Others(pool.available, now) <==> x in pool.available && !pool.Stale(x, now)
             ensures x in pool.Candidates(pool.available, now) <==> x in pool.available && pool.Stale(x, now)
    {
      SplitHolds(pool, pool.available, now, x);
    }
    forall a, b
      ensures Before(pool.available, a, b) ==> a in pool.available && b in pool.available
      ensures Before(pool.Others(pool.available, now), a, b) <==>
              Before(pool.available, a, b) && !pool.Stale(a, now) && !pool.Stale(b, now)
      ensures Before(pool.Candidates(pool.available, now), a, b) <==>
              Before(pool.available, a, b) && pool.Stale(a, now) && pool.Stale(b, now)
    {
      BeforeMeansIn(pool.available, a, b);
      SplitKeepsOrder(pool, pool.available, now, a, b);
    }
  }

  lemma BeforeMeansIn(queue: seq<nat>, a: nat, b: nat)
    ensures Before(queue, a, b) ==> a in queue && b in queue
  {
  }

  /** A slot that comes back to a running pool waits behind all others with its handle, as used now; to
      a stopped one it comes back only to have its handle closed. */
  lemma ReleaseIsExact(pool: Pool, slot: nat, now: int)
    requires slot < |pool.slots| && slot !in pool.available
    ensures var after := pool.Release(slot, now);
            && after.slots[..slot] == pool.slots[..slot] && after.slots[slot + 1..] == pool.slots[slot + 1..]
            && (if pool.stopped then
                  && after.available == pool.available && after.slots[slot].mysql == None
                  && after.handles.open == pool.handles.open - HandlesIn([pool.slots[slot]])
                else
                  && (forall y :: y in pool.available ==> Before(after.available, y, slot))
                  && (forall a, b :: Before(after.available, a, b) ==> b == slot || Before(pool.available, a, b))
                  && after.slots[slot].mysql == pool.slots[slot].mysql && after.slots[slot].lastUsed == now
                  && after.slots[slot].lastChecked == pool.slots[slot].lastChecked
                  && after.handles == pool.handles)
  {
    hide Before;
    forall a, b ensures Before(pool.available + [slot], a, b) <==>
                        Before(pool.available, a, b) || (a in pool.available && b == slot)
    {
      BeforeInLonger(pool.available, slot, a, b);
    }
    var s := pool.slots[slot];
    assert HandlesIn([s]) == if s.mysql.Some? then {s.mysql.value} else {} by {
      assert s.mysql.Some? ==> [s][0].mysql.value in HandlesIn([s]);
    }
  }

  /** Slots are served in turn: whatever a call does, two slots that go on waiting keep their order, and a call
      that takes a slot takes the one that no other was in front of. */
  lemma SlotsAreTakenInTurn(s: System, step: Step, a: nat, b: nat)
    requires Invariant(s) && Enabled(s, step) && SlotsExist(s) && Before(s.pool.available, a, b)
    ensures var after := Apply(s, step);
            && (a in after.pool.available && b in after.pool.available ==> Before(after.pool.available, a, b))
            && (step.Take? ==> Slots(after.calls[step.call]) != [b])
  {
    hide Before, Shaped, HoldersConnected, Pool.EnsureHealthy, Pool.Candidates, Pool.Others, Out;
    BeforeMeansIn(s.pool.available, a, b);
    match step
    case Begin(c, now) => IdleCheckIsExact(s.pool, now);
    case PutBack(c, now) =>
      BeforeInLonger(s.pool.available, Slots(s.calls[c])[0], a, b);
    case Take(c) => TakeInTurn(s.pool.available, a, b);
    case Heal(c, pings, attempts, now) =>
      assert Kept(s.pool) by { KeptWhenShaped(s.pool); }
      HealKeeps(s.pool, Slots(s.calls[c])[0], pings, attempts, now);
    case Init(config, attempts, now) => InitInTurn(s.pool, config, attempts, now);
    case Shutdown => ShutdownInTurn(s.pool);
    case _ =>
  }

  lemma KeptWhenShaped(pool: Pool)
    requires Shaped(pool)
    ensures Kept(pool)
  {
  }

  lemma TakeInTurn(queue: seq<nat>, a: nat, b: nat)
    requires Before(queue, a, b) && NoDuplicates(queue)
    ensures queue[0] != b && (a in queue[1..] ==> Before(queue[1..], a, b))
  {
    var i, j :| 0 <= i < j < |queue| && queue[i] == a && queue[j] == b;
    if i > 0 {
      assert queue[1..][i - 1] == a && queue[1..][j - 1] == b;
    }
  }

  lemma InitInTurn(pool: Pool, config: Config, attempts: seq<Attempt>, now: int)
    requires Shaped(pool) && pool.available != []
    ensures pool.Init(config, attempts, now).0 == pool
  {
    hide Kept;
  }

  lemma ShutdownInTurn(pool: Pool)
    requires Shaped(pool)
    ensures pool.Shutdown().available == []
  {
    hide Kept, CloseSlots;
  }

  /** After a shutdown the pool is stopped and empty, and no handle is open. */
  lemma ShutdownCloses(pool: Pool)
    requires Shaped(pool)
    ensures var after := pool.Shutdown();
            after.stopped && !after.ready && after.slots == [] && after.available == [] && after.handles.open == {}
  {
    hide HandlesMatch, GenerationsDiffer, Pool.CloseAll;
    CloseAllKeeps(pool.(stopped := true, ready := false));
    CloseAllEmpties(pool.(stopped := true, ready := false));
  }

  /** How a call proceeds: it leaves the idle check only when every candidate was looked after and went back, one
      by one in order; and it ends only by giving up a wait, or by putting back or passing on the one slot
      that it could not make healthy or that its guard held. */
  lemma CallsProceed(s: System, step: Step, c: nat)
    requires Invariant(s) && Enabled(s, step) && SlotsExist(s) && c in s.calls
    ensures var phase, after := s.calls[c], Apply(s, step);
            && c in after.calls
            && (phase.Checking? && after.calls[c] != phase ==>
                  || (step.Heal? && after.calls[c] == Checking(phase.candidates, true))
                  || (step.PutBack? && phase.healed && Slots(after.calls[c]) == phase.candidates[1..]
                      && (after.calls[c].Waiting? || (after.calls[c].Checking? && !after.calls[c].healed))))
            && (after.calls[c].Waiting? && !phase.Waiting? ==> phase.Checking? && |phase.candidates| == 1)
            && (after.calls[c].Done? && !phase.Done? ==>
                  || (phase.Waiting? && step == GiveUp(c))
                  || (step.PutBack? && (phase.Failed? || phase.Holding?))
                  || (step.Move? && phase.Holding?))
  {
    hide Shaped, Partition, HoldersConnected, Pool.EnsureHealthy, Pool.Release, Pool.Init, Pool.Shutdown,
         Pool.IdleHealthCheck;
  }

  /** A call that has taken a slot becomes a guard exactly if the slot can serve; then its handle is the
      old one, checked lately or alive, or a new one. */
  lemma GuardExactlyIfUsable(s: System, c: nat, pings: bool, attempts: seq<Attempt>, now: int)
    requires Invariant(s) && SlotsExist(s) && c in s.calls && s.calls[c].Trying?
    ensures var slot, after := s.calls[c].slot, Apply(s, Heal(c, pings, attempts, now));
            && slot in Slots(s.calls[c]) && slot < |s.pool.slots| == |after.pool.slots|
            && after.calls[c] == (if CanServe(s.pool, slot, pings, attempts, now) then Holding(slot) else Failed(slot))
            && (after.calls[c].Holding? ==> Usable(s.pool, after.pool, slot, pings, now))
  {
    hide Pool.EnsureHealthy, CanServe, Usable, Kept, Partition;
    assert Slots(s.calls[c])[0] == s.calls[c].slot;
    assert Kept(s.pool);
    HealIsExact(s.pool, s.calls[c].slot, pings, attempts, now);
  }

  lemma StepKeeps(s: System, step: Step)
    requires Invariant(s) && Enabled(s, step) && SlotsExist(s)
    ensures Invariant(Apply(s, step))
  {
    hide Shaped, Partition, HoldersConnected;
    match step
    case Init(config, attempts, now) => InitStepKeeps(s, config, attempts, now);
    case Shutdown => ShutdownKeeps(s);
    case Begin(c, now) => BeginKeeps(s, c, now);
    case Heal(c, pings, attempts, now) => HealStepKeeps(s, c, pings, attempts, now);
    case PutBack(c, now) => PutBackKeeps(s, c, now);
    case Take(c) => TakeKeeps(s, c);
    case GiveUp(c) => GiveUpKeeps(s, c);
    case Move(c, d) => MoveKeeps(s, c, d);
  }

  lemma MoveKeeps(s: System, c: nat, d: nat)
    requires Invariant(s) && Enabled(s, Move(c, d))
    ensures Invariant(s.(calls := s.calls[c := Done][d := s.calls[c]]))
  {
    hide Kept, Out;
    MovedSlot(|s.pool.slots|, s.pool.available, s.calls, c, d);
  }

  /** That calls only name slots that exist, which makes a step defined, holds in every run. */
  ghost predicate Run(states: seq<System>, steps: seq<Step>) {
    && |states| == |steps| + 1
    && Created(states[0])
    && forall i :: 0 <= i < |steps| ==>
         Enabled(states[i], steps[i]) && (SlotsExist(states[i]) ==> states[i + 1] == Apply(states[i], steps[i]))
  }

  /** A pool that was constructed and not initialised. */
  ghost predicate Created(s: System) {
    && s.calls == map[] && s.pool.slots == [] && s.pool.available == [] && s.pool.nextGeneration == 1
    && !s.pool.ready && s.pool.stopped && s.pool.handles == Handles({}, 0)
  }

  lemma {:induction false} Always(states: seq<System>, steps: seq<Step>, k: nat)
    requires Run(states, steps) && k < |states|
    ensures Invariant(states[k])
  {
    if k > 0 {
      Always(states, steps, k - 1);
      SlotsAreThere(states[k - 1]);
      StepKeeps(states[k - 1], steps[k - 1]);
    } else {
      assert forall x :: x in Handles({}, 0).open ==> false;
    }
  }

  /** In every interleaving: each of the pool's slots is in the queue, or with exactly one call or guard;
      the open handles are exactly those in the slots, no two slots sharing one, so at most `pool_size`
      of them, and none when the pool is not ready; every guard that is not empty has an open handle
      that no other guard has. */
  lemma SlotsAndHandlesAreConserved(states: seq<System>, steps: seq<Step>, k: nat)
    requires Run(states, steps) && k < |states|
    ensures var s := states[k];
            && Partition(|s.pool.slots|, s.pool.available, s.calls)
            && |s.pool.slots| == (if s.pool.ready then s.pool.config.poolSize else 0)
            && HandlesMatch(s.pool.slots, s.pool.handles)
            && s.pool.handles.open == HandlesIn(s.pool.slots) && |s.pool.handles.open| <= |s.pool.slots|
            && HoldersConnected(s)
            && HandlesUnshared(s)
  {
    Always(states, steps, k);
    HandlesAreTheSlots(states[k].pool);
    GuardsDiffer(states[k]);
  }

  /** No two guards have the same slot, or the same handle, and each handle is open. */
  ghost predicate HandlesUnshared(s: System)
    requires HoldersConnected(s)
  {
    && (forall c :: c in s.calls && s.calls[c].Holding? ==> HandleOf(s, c) in s.pool.handles.open)
    && (forall c, d :: c in s.calls && d in s.calls && c != d && s.calls[c].Holding? && s.calls[d].Holding? ==>
          s.calls[c].slot != s.calls[d].slot && HandleOf(s, c) != HandleOf(s, d))
  }

  /** `get()` of a guard that is not empty. */
  function HandleOf(s: System, c: nat): nat
    requires c in s.calls && s.calls[c].Holding?
    requires s.calls[c].slot < |s.pool.slots| && s.pool.slots[s.calls[c].slot].mysql.Some?
  {
    s.pool.slots[s.calls[c].slot].mysql.value
  }

  lemma GuardsDiffer(s: System)
    requires Invariant(s)
    ensures HandlesUnshared(s)
  {
    hide Out;
    forall c, d | c in s.calls && d in s.calls && c != d && s.calls[c].Holding? && s.calls[d].Holding?
      ensures s.calls[c].slot != s.calls[d].slot && HandleOf(s, c) != HandleOf(s, d)
    {
      assert s.calls[c].slot in Slots(s.calls[c]);
      assert s.calls[d].slot in Slots(s.calls[d]);
    }
  }

  lemma HandlesAreTheSlots(pool: Pool)
    requires Kept(pool)
    ensures pool.handles.open == HandlesIn(pool.slots) && |HandlesIn(pool.slots)| <= |pool.slots|
  {
    forall h | h in pool.handles.open ensures h in HandlesIn(pool.slots) {
      var i :| 0 <= i < |pool.slots| && pool.slots[i].mysql == Some(h);
      assert pool.slots[i].mysql.value == h;
    }
    AtMostOneEach(pool.slots);
  }

  lemma {:induction false} AtMostOneEach(slots: seq<Slot>)
    ensures |HandlesIn(slots)| <= |slots|
  {
    if slots == [] {
      assert HandlesIn(slots) == {};
    } else {
      var front, last := slots[..|slots| - 1], slots[|slots| - 1];
      AtMostOneEach(front);
      CloseSlotsCloses(Handles(HandlesIn(slots), 0), slots);
      var added := if last.mysql.Some? then {last.mysql.value} else {};
      assert HandlesIn(slots) <= HandlesIn(front) + added by {
        forall h | h in HandlesIn(slots) ensures h in HandlesIn(front) + added {
          var i :| 0 <= i < |slots| && slots[i].mysql == Some(h);
          if i < |front| { assert front[i].mysql.value == h; }
        }
      }
      SubsetSize(HandlesIn(slots), HandlesIn(front) + added);
    }
  }

  lemma {:induction false} SubsetSize(a: set<nat>, b: set<nat>)
    requires a <= b
    ensures |a| <= |b|
  {
    if a != {} {
      var x :| x in a;
      SubsetSize(a - {x}, b - {x});
    }
  }

  // ------------------------------------------------------------ the pool

  lemma SplitStep(pool: Pool, queue: seq<nat>, done: nat, now: int)
    requires done < |queue|
    ensures pool.Candidates(queue[..done + 1], now) ==
            pool.Candidates(queue[..done], now) + if pool.Stale(queue[done], now) then [queue[done]] else []
    ensures pool.Others(queue[..done + 1], now) ==
            pool.Others(queue[..done], now) + if pool.Stale(queue[done], now) then [] else [queue[done]]
  {
    hide Pool.Stale;
    assert queue[..done + 1][..done] == queue[..done] && queue[..done + 1][done] == queue[done];
  }

  lemma NothingSplit(pool: Pool, now: int)
    ensures pool.Candidates([], now) == [] && pool.Others([], now) == []
  {
  }

  class MySqlConnectionPool {
    var available: seq<nat>
    var connections: seq<Slot>
    var config: Config
    var lastIdleCheck: int
    var nextGeneration: nat
    var ready: bool
    var stopped: bool
    var handles: Handles

    ghost function State(): Pool
      reads this
    {
      Pool(connections, available, config, lastIdleCheck, nextGeneration, ready, stopped, handles)
    }

    constructor ()
      ensures Created(System(State(), map[]))
    {
      available, connections, lastIdleCheck, nextGeneration, ready, stopped := [], [], 0, 1, false, true;
      config := Config(4, 3, 5, 5, 3000, 3, 30, 10);
      handles := Handles({}, 0);
    }

    method CloseAllUnlocked()
      modifies this
      ensures State() == old(State()).CloseAll()
    {
      while available != []
        modifies this`available
      {
        available := available[1..];
      }
      CloseCreated(connections);
      connections := [];
    }

    method Init(newConfig: Config, attempts: seq<Attempt>, now: int) returns (ok: bool)
      modifies this
      ensures (State(), ok) == old(State()).Init(newConfig, attempts, now)
    {
      if ready {
        return true;
      }
      config := newConfig;
      stopped, ready := false, false;
      CloseAllUnlocked();
      if !config.Positive() {
        stopped := true;
        return false;
      }
      var created, broken := CreateConnections(attempts, now);
      if broken {
        CloseCreated(created);
        stopped := true;
        return false;
      }
      available, connections := Numbers(|created|), created;
      lastIdleCheck := now;
      ready := true;
      return true;
    }

    method CreateConnections(attempts: seq<Attempt>, now: int) returns (created: seq<Slot>, broken: bool)
      requires connections == []
      modifies this`handles, this`nextGeneration
      ensures State().(slots := created) == old(State()).CreateSlots(0, attempts, now)
      ensures broken <==> |created| < config.poolSize
    {
      created, broken := [], false;
      while |created| < config.poolSize && !broken
        invariant broken ==> |created| < config.poolSize
        invariant State() == old(State()).(handles := handles, nextGeneration := nextGeneration)
        invariant old(State()).CreateSlots(0, attempts, now) ==
                  (if broken then State().(slots := created)
                   else State().(slots := created).CreateSlots(|created|, attempts, now))
        decreases config.poolSize - |created|, !broken
      {
        var (after, mysql) := handles.Create(AttemptAt(attempts, |created|));
        handles := after;
        if mysql.None? {
          broken := true;
        } else {
          created := created + [Slot(mysql, now, now, nextGeneration)];
          nextGeneration := nextGeneration + 1;
        }
      }
    }

    method CloseCreated(created: seq<Slot>)
      modifies this`handles
      ensures handles == CloseSlots(old(handles), created)
    {
      for i := 0 to |created|
        invariant handles == CloseSlots(old(handles), created[..i])
      {
        assert created[..i + 1][..i] == created[..i];
        handles := handles.Close(created[i].mysql);
      }
      assert created[..|created|] == created;
    }

    method IdleHealthCheckUnlocked(now: int) returns (candidates: seq<nat>)
      modifies this
      ensures (State(), candidates) == old(State()).IdleHealthCheck(now)
    {
      candidates := [];
      if stopped || available == [] {
        return;
      }
      if lastIdleCheck != 0 && now - lastIdleCheck < config.idleCheckInterval {
        return;
      }
      hide Pool.Candidates, Pool.Others;
      lastIdleCheck := now;
      ghost var pool, queue := old(State()), available;
      var keep: seq<nat> := [];
      NothingSplit(pool, now);
      ghost var done := 0;
      while available != []
        modifies this`available
        invariant done <= |queue| && available == queue[done..]
        invariant candidates == pool.Candidates(queue[..done], now) && keep == pool.Others(queue[..done], now)
        decreases |available|
      {
        var slot := available[0];
        available := available[1..];
        SplitStep(pool, queue, done, now);
        if slot < |connections| &&
           (connections[slot].mysql.None? || now - connections[slot].lastChecked >= config.idlePingInterval) {
          candidates := candidates + [slot];
        } else {
          keep := keep + [slot];
        }
        done := done + 1;
      }
      assert queue[..done] == queue;
      available := keep;
    }

    method ReconnectConnection(slot: nat, attempts: seq<Attempt>, now: int) returns (ok: bool)
      requires slot < |connections|
      modifies this
      ensures (State(), ok) == old(State()).Reconnect(slot, attempts, now)
    {
      handles := handles.Close(connections[slot].mysql);
      connections := connections[slot := connections[slot].(mysql := None)];
      ghost var closed := State();
      var attempt: nat := 0;
      while attempt < config.maxReconnectAttempts
        modifies this
        invariant State() == closed.(handles := handles)
        invariant State().Retry(slot, attempt, attempts, now) == closed.Retry(slot, 0, attempts, now)
        decreases config.maxReconnectAttempts - attempt
      {
        var (after, mysql) := handles.Create(AttemptAt(attempts, attempt));
        handles := after;
        if mysql.Some? {
          connections := connections[slot := Slot(mysql, now, now, nextGeneration)];
          nextGeneration := nextGeneration + 1;
          return true;
        }
        attempt := attempt + 1;
      }
      return false;
    }

    method EnsureHealthy(slot: nat, pings: bool, attempts: seq<Attempt>, now: int) returns (ok: bool)
      requires slot < |connections|
      modifies this
      ensures (State(), ok) == old(State()).EnsureHealthy(slot, pings, attempts, now)
    {
      var shouldPing := connections[slot].mysql.None? || now - connections[slot].lastChecked >= config.idlePingInterval;
      if !shouldPing {
        return true;
      }
      if connections[slot].mysql.Some? && pings {
        connections := connections[slot := connections[slot].(lastChecked := now)];
        return true;
      }
      ok := ReconnectConnection(slot, attempts, now);
    }

    method Release(slot: nat, now: int)
      requires slot < |connections|
      modifies this
      ensures State() == old(State()).Release(slot, now)
    {
      if stopped {
        handles := handles.Close(connections[slot].mysql);
        connections := connections[slot := connections[slot].(mysql := None)];
        return;
      }
      connections := connections[slot := connections[slot].(lastUsed := now)];
      available := available + [slot];
    }

    method ShutDown()
      modifies this
      ensures State() == old(State()).Shutdown()
    {
      if stopped && connections == [] {
        return;
      }
      stopped, ready := true, false;
      CloseAllUnlocked();
    }

    ghost predicate InRange(queue: seq<nat>)
      reads this
    {
      forall i :: 0 <= i < |queue| ==> queue[i] < |connections|
    }

    /** `EnsureHealthy` and `Release` as a caller that keeps the pool's invariant sees them. */
    method MakeHealthy(slot: nat, pings: bool, attempts: seq<Attempt>, now: int) returns (ok: bool)
      requires Shaped(State()) && slot < |connections|
      modifies this
      ensures Shaped(State()) && |connections| == |old(connections)|
      ensures stopped == old(stopped) && available == old(available)
      ensures (State(), ok) == old(State()).EnsureHealthy(slot, pings, attempts, now)
    {
      hide Pool.EnsureHealthy, Kept;
      HealKeeps(State(), slot, pings, attempts, now);
      ok := EnsureHealthy(slot, pings, attempts, now);
    }

    method PutBack(slot: nat, now: int)
      requires Shaped(State()) && slot < |connections| && !stopped
      modifies this
      ensures Shaped(State()) && |connections| == |old(connections)| && !stopped && available == old(available) + [slot]
      ensures State() == old(State()).Release(slot, now)
    {
      hide Kept;
      ReleaseKeeps(State(), slot, now);
      Release(slot, now);
    }

    method LookAfter(slot: nat, server: Server, now: int, ghost before: Pool)
      requires Shaped(State()) && slot < |connections| && !stopped
      requires AllStand(before, State(), server, now)
      modifies this
      ensures Shaped(State()) && |connections| == |old(connections)| && !stopped && available == old(available) + [slot]
      ensures AllStand(before, State(), server, now)
    {
      hide Shaped, AllStand, Pool.EnsureHealthy, Pool.Release;
      HealStands(before, State(), slot, server, now);
      var healthy := MakeHealthy(slot, server.pings(slot), server.attempts(slot), now);
      ReleaseStands(before, State(), slot, server, now);
      PutBack(slot, now);
    }

    /** The first part of `acquire`: the idle candidates are looked after and go back. */
    method CheckIdle(server: Server, now: int)
      requires Shaped(State()) && InRange(available)
      modifies this
      ensures Shaped(State()) && InRange(available) && stopped == old(stopped)
      ensures available == QueueAfterCheck(old(State()), now)
      ensures AllStand(old(State()), State(), server, now)
    {
      hide Shaped, Pool.Candidates, Pool.Others, Pool.Stale, AllStand;
      SplitStays(State(), available, now, |connections|);
      IdleCheckKeeps(State(), now);
      IdleCheckStands(State(), server, now);
      ghost var before := State();
      var candidates := IdleHealthCheckUnlocked(now);
      while candidates != []
        modifies this
        invariant Shaped(State()) && (candidates != [] ==> !stopped) && stopped == old(stopped)
        invariant available + candidates == QueueAfterCheck(before, now)
        invariant InRange(available) && InRange(candidates)
        invariant AllStand(before, State(), server, now)
      {
        var slot := candidates[0];
        assert available + candidates == (available + [slot]) + candidates[1..];
        LookAfter(slot, server, now, before);
        candidates := candidates[1..];
      }
    }

    /** A call that nobody interrupts. It returns a slot exactly if the pool runs and the slot whose turn it is
        after the idle check can serve; the slot is then usable, out of the queue, and its handle
        the old one, checked lately or alive, or a new one. Otherwise every slot is back. */
    method Acquire(server: Server, now: int) returns (guard: Option<nat>)
      requires Shaped(State()) && InRange(available)
      modifies this
      ensures Shaped(State())
      ensures guard.Some? <==> CanAcquire(old(State()), server, now)
      ensures guard.Some? ==>
                && guard.value == QueueAfterCheck(old(State()), now)[0] < |old(connections)| == |connections|
                && Usable(old(State()), State(), guard.value, server.pings(guard.value), now)
                && available == QueueAfterCheck(old(State()), now)[1..]
      ensures multiset(available) + (if guard.Some? then multiset{guard.value} else multiset{}) == multiset(old(available))
    {
      hide Shaped, AllStand, QueueAfterCheck, Pool.EnsureHealthy, Pool.Release;
      CheckKeepsAll(State(), now);
      ghost var before := State();
      CheckIdle(server, now);
      StandsStopped(before, State(), server, now);
      if stopped || available == [] {
        return None;
      }
      var slot := available[0];
      HeadMoves([], available);
      TakingKeeps(State());
      TakingStands(before, State(), available[1..], server, now);
      available := available[1..];
      HealStands(before, State(), slot, server, now);
      var ok := MakeHealthy(slot, server.pings(slot), server.attempts(slot), now);
      if !ok {
        PutBack(slot, now);
        return None;
      }
      return Some(slot);
    }
  }

  /** How the database server answers, slot by slot. */
  datatype Server = Server(pings: nat -> bool, attempts: nat -> seq<Attempt>)

  /** The queue when `acquire` has looked at the idle connections. */
  function QueueAfterCheck(pool: Pool, now: int): seq<nat> {
    var (after, candidates) := pool.IdleHealthCheck(now);
    after.available + candidates
  }

  lemma CheckKeepsAll(pool: Pool, now: int)
    ensures multiset(QueueAfterCheck(pool, now)) == multiset(pool.available)
  {
    SplitKeepsAll(pool, pool.available, now);
  }

  ghost predicate CanAcquire(pool: Pool, server: Server, now: int) {
    var queue := QueueAfterCheck(pool, now);
    && !pool.stopped && queue != [] && queue[0] < |pool.slots|
    && CanServe(pool, queue[0], server.pings(queue[0]), server.attempts(queue[0]), now)
  }

  /** Slot `j` has been looked after. */
  ghost predicate LookedAfter(before: Pool, pool: Pool, j: nat, server: Server, now: int)
    requires j < |before.slots| && j < |pool.slots|
  {
    && (pool.slots[j].mysql.Some? <==> CanServe(before, j, server.pings(j), server.attempts(j), now))
    && (pool.slots[j].mysql.Some? ==> Usable(before, pool, j, server.pings(j), now))
  }

  /** Within one call every slot is as it was before, or has been looked after. */
  ghost predicate AllStand(before: Pool, pool: Pool, server: Server, now: int) {
    && |pool.slots| == |before.slots| && pool.config == before.config && pool.stopped == before.stopped
    && pool.handles.next >= before.handles.next && pool.nextGeneration >= before.nextGeneration
    && forall j :: 0 <= j < |pool.slots| ==>
         pool.slots[j] == before.slots[j] || LookedAfter(before, pool, j, server, now)
  }

  lemma StandsStopped(before: Pool, pool: Pool, server: Server, now: int)
    requires AllStand(before, pool, server, now)
    ensures pool.stopped == before.stopped && |pool.slots| == |before.slots|
  {
  }

  lemma TakingStands(before: Pool, pool: Pool, rest: seq<nat>, server: Server, now: int)
    requires AllStand(before, pool, server, now)
    ensures AllStand(before, pool.(available := rest), server, now)
  {
  }

  lemma IdleCheckStands(pool: Pool, server: Server, now: int)
    ensures AllStand(pool, pool.IdleHealthCheck(now).0, server, now)
  {
    hide Pool.Candidates, Pool.Others;
  }

  /** Looking after a slot, for the first time or again: it ends up looked after. */
  lemma HealStands(before: Pool, pool: Pool, slot: nat, server: Server, now: int)
    requires Shaped(pool) && slot < |pool.slots| && AllStand(before, pool, server, now)
    ensures var (after, ok) := pool.EnsureHealthy(slot, server.pings(slot), server.attempts(slot), now);
            && AllStand(before, after, server, now) && LookedAfter(before, after, slot, server, now)
            && (ok <==> CanServe(before, slot, server.pings(slot), server.attempts(slot), now))
  {
    hide Pool.EnsureHealthy, Kept, CanConnect;
    assert Kept(pool) by { KeptWhenShaped(pool); }
    assert pool.config.idlePingInterval > 0 by { PositiveWhenUsed(pool); }
    HealIsExact(pool, slot, server.pings(slot), server.attempts(slot), now);
    HealKeeps(pool, slot, server.pings(slot), server.attempts(slot), now);
  }

  lemma PositiveWhenUsed(pool: Pool)
    requires Shaped(pool) && pool.slots != []
    ensures pool.config.idlePingInterval > 0
  {
  }

  lemma ReleaseStands(before: Pool, pool: Pool, slot: nat, server: Server, now: int)
    requires slot < |pool.slots| && AllStand(before, pool, server, now) && LookedAfter(before, pool, slot, server, now)
    requires !pool.stopped
    ensures AllStand(before, pool.Release(slot, now), server, now)
  {
    hide CanServe;
    var after := pool.Release(slot, now);
    forall j | 0 <= j < |after.slots|
      ensures after.slots[j] == before.slots[j] || LookedAfter(before, after, j, server, now)
    {
      assert j != slot ==> after.slots[j] == pool.slots[j];
    }
  }

  lemma HeadMoves(a: seq<nat>, b: seq<nat>)
    requires b != []
    ensures multiset(a + [b[0]]) + multiset(b[1..]) == multiset(a) + multiset(b)
    ensures multiset(b[1..]) + multiset{b[0]} == multiset(b)
  {
    assert b == [b[0]] + b[1..];
  }

  lemma IdleCheckKeeps(pool: Pool, now: int)
    requires Shaped(pool)
    ensures Shaped(pool.IdleHealthCheck(now).0) && (pool.IdleHealthCheck(now).1 != [] ==> !pool.stopped)
  {
    hide HandlesMatch, GenerationsDiffer, Pool.Candidates, Pool.Others;
  }

  lemma TakingKeeps(pool: Pool)
    requires Shaped(pool) && pool.available != []
    ensures Shaped(pool.(available := pool.available[1..]))
  {
    hide HandlesMatch, GenerationsDiffer;
  }

  lemma {:induction false} SplitKeepsAll(pool: Pool, queue: seq<nat>, now: int)
    ensures multiset(pool.Candidates(queue, now)) + multiset(pool.Others(queue, now)) == multiset(queue)
  {
    hide Pool.Stale;
    if queue != [] {
      SplitKeepsAll(pool, queue[..|queue| - 1], now);
      assert queue == queue[..|queue| - 1] + [queue[|queue| - 1]];
    }
  }

  lemma {:induction false} SplitStays(pool: Pool, queue: seq<nat>, now: int, n: nat)
    requires forall i :: 0 <= i < |queue| ==> queue[i] < n
    ensures forall i :: 0 <= i < |pool.Candidates(queue, now)| ==> pool.Candidates(queue, now)[i] < n
    ensures forall i :: 0 <= i < |pool.Others(queue, now)| ==> pool.Others(queue, now)[i] < n
  {
    hide Pool.Stale;
    if queue != [] {
      SplitStays(pool, queue[..|queue| - 1], now, n);
    }
  }

  /** The move-only guard. */
  class PooledMySqlConnection {
    var pool: MySqlConnectionPool?
    var connection: Option<nat>

    ghost predicate Valid()
      reads this, pool
    {
      pool != null && connection.Some? ==> connection.value < |pool.connections|
    }

    constructor (pool: MySqlConnectionPool?, connection: Option<nat>)
      requires pool != null && connection.Some? ==> connection.value < |pool.connections|
      ensures this.pool == pool && this.connection == connection && Valid()
    {
      this.pool, this.connection := pool, connection;
    }

    /** What the destructor and a move assignment do first. */
    method Reset(now: int)
      requires Valid()
      modifies this, pool
      ensures pool == null && connection == None
      ensures old(pool) != null && old(connection).Some? ==>
                old(pool).State() == old(pool.State()).Release(old(connection).value, now)
      ensures old(pool) != null && old(connection).None? ==> old(pool).State() == old(pool.State())
    {
      if pool != null && connection.Some? {
        pool.Release(connection.value, now);
      }
      pool, connection := null, None;
    }

    /** Move assignment: the slot changes hands, and only the slot held before goes back. */
    method MoveFrom(other: PooledMySqlConnection, now: int)
      requires Valid() && other.Valid()
      modifies this, other, pool
      ensures this == other ==> pool == old(pool) && connection == old(connection)
      ensures this != other ==> pool == old(other.pool) && connection == old(other.connection)
      ensures this != other ==> other.pool == null && other.connection == None
      ensures this != other && old(pool) != null && old(connection).Some? ==>
                old(pool).State() == old(pool.State()).Release(old(connection).value, now)
      ensures (this == other || old(connection).None?) && old(pool) != null ==> old(pool).State() == old(pool.State())
    {
      if this != other {
        Reset(now);
        pool, connection := other.pool, other.connection;
        other.pool, other.connection := null, None;
      }
    }
  }
}
