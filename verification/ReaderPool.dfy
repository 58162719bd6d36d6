/**
 * The bounded pool of read connections.  Each method is one atomic step of some thread: what the lock
 * protects, or what a borrower does between two visits to it.  Borrowers and connections are numbered.
 */
module ReaderPool {
  import opened Basics
  import opened Wrappers

  datatype Outcome =
    | Rejected
    | MustWait
    | Reused(connection: nat)
    | Reserved

  /** No connection has two borrowers. */
  predicate Exclusive(held: map<nat, nat>) {
    forall b, c :: b in held && c in held && held[b] == held[c] ==> b == c
  }

  /**
   * Where every open connection is: idle, held by one borrower, about to be closed by `close`, or stray,
   * that is dropped by a borrower that failed; never in two places.
   */
  ghost predicate Located(available: seq<nat>, held: map<nat, nat>, draining: seq<nat>, stray: set<nat>, open: set<nat>) {
    && Distinct(available) && Distinct(draining) && Exclusive(held)
    && (forall c :: c in available ==> c !in held.Values && c !in draining && c !in stray)
    && (forall c :: c in held.Values ==> c !in draining && c !in stray)
    && (forall c :: c in draining ==> c !in stray)
    && (forall c :: c in open <==> c in available || c in held.Values || c in draining || c in stray)
  }

  lemma ValuesPut(held: map<nat, nat>, b: nat, c: nat)
    requires b !in held
    ensures held[b := c].Values == held.Values + {c}
  {
    var more := held[b := c];
    assert more[b] == c;
    forall x | x in held.Values ensures x in more.Values {
      var y :| y in held && held[y] == x;
      assert more[y] == x;
    }
  }

  lemma ValuesDrop(held: map<nat, nat>, b: nat)
    requires Exclusive(held) && b in held
    ensures (held - {b}).Values == held.Values - {held[b]}
  {
    var fewer := held - {b};
    forall x | x in held.Values && x != held[b] ensures x in fewer.Values {
      var y :| y in held && held[y] == x;
      assert y in fewer && fewer[y] == x;
    }
  }

  lemma Pop(available: seq<nat>, held: map<nat, nat>, draining: seq<nat>, stray: set<nat>, open: set<nat>, b: nat)
    requires Located(available, held, draining, stray, open) && available != [] && b !in held
    ensures var n := |available| - 1;
            && Located(available[..n], held[b := available[n]], draining, stray, open)
            && available == available[..n] + [available[n]]
            && available[n] in open && available[n] !in held.Values
  {
    var n := |available| - 1;
    assert available[n] in available;
    assert available == available[..n] + [available[n]];
    assert forall k :: 0 <= k < n ==> available[k] != available[n];
    ValuesPut(held, b, available[n]);
    assert forall c :: c in available[..n] ==> c in available && c != available[n];
  }

  /** What a borrower held becomes idle, is closed, or goes astray. */
  lemma GiveUp(available: seq<nat>, held: map<nat, nat>, draining: seq<nat>, stray: set<nat>, open: set<nat>, b: nat)
    requires Located(available, held, draining, stray, open) && b in held
    ensures Located(available + [held[b]], held - {b}, draining, stray, open)
    ensures Located(available, held - {b}, draining, stray, open - {held[b]})
    ensures Located(available, held - {b}, draining, stray + {held[b]}, open)
  {
    assert held[b] in held.Values;
    ValuesDrop(held, b);
  }

  lemma Open(available: seq<nat>, held: map<nat, nat>, draining: seq<nat>, stray: set<nat>, open: set<nat>, b: nat, c: nat)
    requires Located(available, held, draining, stray, open) && b !in held && c !in open
    ensures Located(available, held[b := c], draining, stray, open + {c})
  {
    ValuesPut(held, b, c);
  }

  function Elements(s: seq<nat>): (e: set<nat>)
    ensures forall c :: c in e <==> c in s
    ensures |e| <= |s|
  {
    if s == [] then {} else Elements(s[1..]) + {s[0]}
  }

  lemma {:induction false} DistinctCount(s: seq<nat>)
    requires Distinct(s)
    ensures |Elements(s)| == |s|
  {
    if s != [] {
      DistinctCount(s[1..]);
      assert s[0] !in s[1..];
    }
  }

  lemma {:induction false} ValuesCount(held: map<nat, nat>)
    requires Exclusive(held)
    ensures |held.Values| == |held|
    decreases held
  {
    if held != map[] {
      var b :| b in held;
      var fewer := held - {b};
      ValuesCount(fewer);
      assert held.Keys == fewer.Keys + {b};
      ValuesDrop(held, b);
      assert held[b] in held.Values;
    }
  }

  lemma Count(available: seq<nat>, held: map<nat, nat>, draining: seq<nat>, stray: set<nat>, open: set<nat>)
    requires Located(available, held, draining, stray, open)
    ensures |open| == |available| + |held| + |draining| + |stray|
  {
    DistinctCount(available);
    DistinctCount(draining);
    ValuesCount(held);
    FourParts(Elements(available), held.Values, Elements(draining), stray, open);
  }

  lemma FourParts(a: set<nat>, v: set<nat>, d: set<nat>, s: set<nat>, all: set<nat>)
    requires forall x :: x in all <==> x in a || x in v || x in d || x in s
    requires forall x :: x in a ==> x !in v && x !in d && x !in s
    requires forall x :: x in v ==> x !in d && x !in s
    requires forall x :: x in d ==> x !in s
    ensures |all| == |a| + |v| + |d| + |s|
  {
    assert all == a + v + d + s;
    assert a !! v && (a + v) !! d && (a + v + d) !! s;
  }

  class Pool {
    const size: nat
    var available: seq<nat>
    var created: int
    var closed: bool
    /** Who holds which connection; the holders that have not reached the block yet; who is still opening. */
    var held: map<nat, nat>
    var entering: set<nat>
    var opening: set<nat>
    /** Idle connections that `close` has taken out and not closed yet. */
    var draining: seq<nat>
    /** Open connections that neither the pool nor a borrower will use again. */
    var stray: set<nat>
    /** The connections that are open, and those with a transaction left open. */
    var open: set<nat>
    var busy: set<nat>
    /** How often a slot was lost: by a cancellation before the block, by an error while giving back. */
    ghost var cancelled: nat
    ghost var raised: nat

    ghost function Lost(): nat
      reads this`cancelled, this`raised
    {
      cancelled + raised
    }

    ghost predicate Valid()
      reads this
    {
      && size >= 1
      && created == |available| + |held| + |opening| + Lost()
      && created <= size
      && held.Keys !! opening && entering <= held.Keys
      && Located(available, held, draining, stray, open)
      && (closed ==> available == [])
      && (!closed ==> draining == [])
      && forall c :: c in available ==> c !in busy
    }

    /** Nobody holds a connection or is opening one, and `close`, if called, has closed all it took out. */
    ghost predicate Quiet()
      reads this
    {
      held == map[] && opening == {} && draining == []
    }

    constructor (size: nat)
      requires size >= 1
      ensures Valid() && Quiet() && this.size == size
      ensures available == [] && created == 0 && !closed && entering == {} && open == {} && cancelled == 0 && raised == 0
    {
      this.size := size;
      available, created, closed := [], 0, false;
      held, entering, opening, draining, stray, open, busy := map[], {}, {}, [], {}, {}, {};
      cancelled, raised := 0, 0;
    }

    /** A pool of the size asked for, or the error the constructor raises. */
    static method Make(size: int) returns (r: Result<Pool, string>)
      ensures r.Ok? <==> size >= 1
      ensures r.Ok? ==>
                && fresh(r.value) && r.value.Valid() && r.value.Quiet() && r.value.size == size
                && r.value.created == 0 && !r.value.closed && r.value.Lost() == 0
    {
      if size < 1 {
        return Err("Search reader pool size must be positive");
      }
      var pool := new Pool(size);
      return Ok(pool);
    }

    /**
     * One look under the lock.  A borrower waits only while the connections others hold or are opening and
     * the slots already lost make up `size`; what it gets from the idle ones nobody else holds, and no
     * transaction is open on it.
     */
    method Acquire(borrower: nat) returns (outcome: Outcome)
      requires Valid() && borrower !in held && borrower !in opening
      modifies this`available, this`created, this`held, this`entering, this`opening
      ensures Valid()
      ensures outcome.Rejected? <==> closed
      ensures outcome.MustWait? <==> !closed && old(available) == [] && old(|held| + |opening|) + Lost() == size
      ensures outcome.Rejected? || outcome.MustWait? ==>
                && available == old(available) && created == old(created)
                && held == old(held) && entering == old(entering) && opening == old(opening)
      ensures outcome.Reused? ==>
                && old(available) == available + [outcome.connection] && created == old(created)
                && held == old(held)[borrower := outcome.connection]
                && entering == old(entering) + {borrower} && opening == old(opening)
                && outcome.connection !in old(held).Values && outcome.connection in open && outcome.connection !in busy
      ensures outcome.Reserved? ==>
                && old(available) == available == [] && created == old(created) + 1
                && held == old(held) && entering == old(entering) && opening == old(opening) + {borrower}
    {
      if closed {
        outcome := Rejected;
      } else if available == [] && created >= size {
        outcome := MustWait;
      } else if available != [] {
        var c := Reuse(borrower);
        outcome := Reused(c);
      } else {
        hide Located;
        created := created + 1;
        opening := opening + {borrower};
        outcome := Reserved;
      }
    }

    /** The most recently returned connection goes to the borrower. */
    method Reuse(borrower: nat) returns (c: nat)
      requires Valid() && borrower !in held && borrower !in opening && available != []
      modifies this`available, this`held, this`entering
      ensures Valid()
      ensures old(available) == available + [c] && held == old(held)[borrower := c]
      ensures entering == old(entering) + {borrower}
      ensures c !in old(held).Values && c in open && c !in busy
    {
      hide Located;
      c := available[|available| - 1];
      assert c in available;
      Pop(available, held, draining, stray, open, borrower);
      available := available[..|available| - 1];
      held := held[borrower := c];
      entering := entering + {borrower};
    }

    /** The reserved slot gets its connection, even if the pool has been closed meanwhile. */
    method Opened(borrower: nat, connection: nat)
      requires Valid() && borrower in opening && connection !in open
      modifies this`held, this`opening, this`open
      ensures Valid()
      ensures held == old(held)[borrower := connection] && opening == old(opening) - {borrower}
      ensures open == old(open) + {connection}
    {
      Open(available, held, draining, stray, open, borrower, connection);
      opening := opening - {borrower};
      held := held[borrower := connection];
      open := open + {connection};
    }

    /** Opening failed: what was opened is closed again and the slot is free for another. */
    method OpenFailed(borrower: nat)
      requires Valid() && borrower in opening
      modifies this`created, this`opening
      ensures Valid()
      ensures created == old(created) - 1 && opening == old(opening) - {borrower}
    {
      opening := opening - {borrower};
      created := created - 1;
    }

    /** The borrower of a reused connection has passed the span before the block. */
    method EnterBlock(borrower: nat)
      requires Valid() && borrower in entering
      modifies this`entering
      ensures Valid() && entering == old(entering) - {borrower}
    {
      entering := entering - {borrower};
    }

    /**
     * The span before the block raises because the search was cancelled.  The connection has left the idle
     * ones, no `finally` hands it back, and its slot stays counted for good.
     */
    method CancelReuse(borrower: nat)
      requires Valid() && borrower in entering
      modifies this`held, this`entering, this`stray, this`cancelled
      ensures Valid() && cancelled == old(cancelled) + 1
      ensures held == old(held) - {borrower} && entering == old(entering) - {borrower}
      ensures stray == old(stray) + {old(held)[borrower]}
    {
      GiveUp(available, held, draining, stray, open, borrower);
      stray := stray + {held[borrower]};
      held := held - {borrower};
      entering := entering - {borrower};
      cancelled := cancelled + 1;
    }

    /** A borrower leaves a read transaction open on its connection. */
    method LeaveTransaction(borrower: nat)
      requires Valid() && borrower in held && borrower !in entering
      modifies this`busy
      ensures Valid()
      ensures busy == old(busy) + {held[borrower]}
    {
      assert held[borrower] in held.Values;
      busy := busy + {held[borrower]};
    }

    /** The end of the block, normal or not: roll back, then hand the connection back or close it. */
    method Return(borrower: nat)
      requires Valid() && borrower in held && borrower !in entering
      modifies this`available, this`created, this`held, this`open, this`busy
      ensures Valid()
      ensures held == old(held) - {borrower} && busy == old(busy) - {old(held)[borrower]}
      ensures closed ==> created == old(created) - 1 && open == old(open) - {old(held)[borrower]} && available == old(available)
      ensures !closed ==> created == old(created) && open == old(open) && available == old(available) + [old(held)[borrower]]
    {
      var c := held[borrower];
      GiveUp(available, held, draining, stray, open, borrower);
      busy := busy - {c};
      held := held - {borrower};
      if closed {
        open := open - {c};
        created := created - 1;
      } else {
        available := available + [c];
      }
    }

    /** The rollback, or the closing, at the end of the block raises: what follows it in the `finally` is skipped. */
    method ReturnRaises(borrower: nat)
      requires Valid() && borrower in held && borrower !in entering
      modifies this`held, this`stray, this`raised
      ensures Valid() && raised == old(raised) + 1
      ensures held == old(held) - {borrower} && stray == old(stray) + {old(held)[borrower]}
    {
      GiveUp(available, held, draining, stray, open, borrower);
      stray := stray + {held[borrower]};
      held := held - {borrower};
      raised := raised + 1;
    }

    /** Closing what a failed opening had opened raises: the slot is not freed. */
    method OpenFailureRaises(borrower: nat, connection: nat)
      requires Valid() && borrower in opening && connection !in open
      modifies this`opening, this`stray, this`open, this`raised
      ensures Valid() && raised == old(raised) + 1
      ensures opening == old(opening) - {borrower}
      ensures stray == old(stray) + {connection} && open == old(open) + {connection}
    {
      opening := opening - {borrower};
      stray := stray + {connection};
      open := open + {connection};
      raised := raised + 1;
    }

    /** The interpreter collects, and so closes, a connection nobody refers to.  Its slot stays counted. */
    method Collect(connection: nat)
      requires Valid() && connection in stray
      modifies this`stray, this`open
      ensures Valid() && stray == old(stray) - {connection} && open == old(open) - {connection}
    {
      stray := stray - {connection};
      open := open - {connection};
    }

    /** Under the lock: no new borrowers, and the idle connections are taken out. */
    method Close()
      requires Valid()
      modifies this`closed, this`available, this`created, this`draining
      ensures Valid() && closed && available == []
      ensures created == old(created) - |old(available)| == |held| + |opening| + Lost()
      ensures draining == old(draining) + old(available)
    {
      draining := draining + available;
      created := created - |available|;
      available := [];
      closed := true;
    }

    /** After the lock: one of the connections taken out is closed. */
    method CloseIdle()
      requires Valid() && draining != []
      modifies this`draining, this`open
      ensures Valid()
      ensures draining == old(draining)[1..] && open == old(open) - {old(draining)[0]}
    {
      var c := draining[0];
      assert draining == [c] + draining[1..];
      assert c in draining;
      draining := draining[1..];
      open := open - {c};
    }

    /**
     * A closed pool whose borrowers are gone and whose idle connections are closed counts no connection
     * exactly when no slot was ever lost, and has none open but the stray ones.
     */
    lemma Drained()
      requires Valid() && closed && Quiet()
      ensures created == 0 <==> cancelled == 0 && raised == 0
      ensures open == stray
    {
      assert forall c :: c !in held.Values;
      assert forall c :: c in open <==> c in stray;
    }

    /**
     * Once `size` slots are lost nobody holds or opens a connection and none is idle.  Steps never lower
     * what is lost, so until the pool is closed every later borrower waits, with nobody to wait for.
     */
    lemma Starved()
      requires Valid() && Lost() == size
      ensures available == [] && held == map[] && opening == {}
    {
    }

    /** Every open connection is counted once: at most `size` are idle or held. */
    lemma OpenCount()
      requires Valid()
      ensures |open| == |available| + |held| + |draining| + |stray|
      ensures |available| + |held| <= size - Lost()
    {
      Count(available, held, draining, stray, open);
    }

    /** A step some thread may take in this state. */
    predicate Enabled(step: Step)
      reads this
    {
      match step
      case Acquire(b) => b !in held && b !in opening
      case Opened(b, c) => b in opening && c !in open
      case OpenFailed(b) => b in opening
      case OpenFailureRaises(b, c) => b in opening && c !in open
      case EnterBlock(b) => b in entering
      case CancelReuse(b) => b in entering
      case LeaveTransaction(b) => b in held && b !in entering
      case Return(b) => b in held && b !in entering
      case ReturnRaises(b) => b in held && b !in entering
      case Collect(c) => c in stray
      case Close => true
      case CloseIdle => draining != []
    }

    /** One of the steps that lose a slot. */
    method TakeLoss(step: Step)
      requires Valid() && Enabled(step) && Loses(step)
      modifies this
      ensures Valid() && Lost() == old(Lost()) + 1
    {
      hide Valid, Quiet;
      match step {
        case OpenFailureRaises(b, c) => OpenFailureRaises(b, c);
        case CancelReuse(b) => CancelReuse(b);
        case ReturnRaises(b) => ReturnRaises(b);
      }
    }

    /** One of the steps that take, free or hand back a slot. */
    method TakeSlot(step: Step)
      requires Valid() && Enabled(step) && (step.Acquire? || step.OpenFailed? || step.Return?)
      modifies this
      ensures Valid() && Lost() == old(Lost())
    {
      hide Valid, Quiet;
      match step {
        case Acquire(b) => var _ := Acquire(b);
        case OpenFailed(b) => OpenFailed(b);
        case Return(b) => Return(b);
      }
    }

    /** One of the steps of a borrower between those. */
    method TakeBetween(step: Step)
      requires Valid() && Enabled(step) && (step.Opened? || step.EnterBlock? || step.LeaveTransaction?)
      modifies this
      ensures Valid() && Lost() == old(Lost())
    {
      hide Valid, Quiet;
      match step {
        case Opened(b, c) => Opened(b, c);
        case EnterBlock(b) => EnterBlock(b);
        case LeaveTransaction(b) => LeaveTransaction(b);
      }
    }

    method Take(step: Step)
      requires Valid() && Enabled(step)
      modifies this
      ensures Valid()
      ensures Lost() == old(Lost()) + if Loses(step) then 1 else 0
    {
      hide Valid, Quiet;
      if Loses(step) {
        TakeLoss(step);
      } else if step.Collect? {
        Collect(step.connection);
      } else if step.Close? {
        Close();
      } else if step.CloseIdle? {
        CloseIdle();
      } else if step.Acquire? || step.OpenFailed? || step.Return? {
        TakeSlot(step);
      } else {
        TakeBetween(step);
      }
    }

    lemma LostBound()
      requires Valid()
      ensures Lost() <= size
    {
    }
  }

  datatype Step =
    | Acquire(borrower: nat)
    | Opened(borrower: nat, connection: nat)
    | OpenFailed(borrower: nat)
    | OpenFailureRaises(borrower: nat, connection: nat)
    | EnterBlock(borrower: nat)
    | CancelReuse(borrower: nat)
    | LeaveTransaction(borrower: nat)
    | Return(borrower: nat)
    | ReturnRaises(borrower: nat)
    | Collect(connection: nat)
    | Close
    | CloseIdle

  /** Whether the step, when it is taken, loses a slot. */
  predicate Loses(step: Step) {
    step.CancelReuse? || step.ReturnRaises? || step.OpenFailureRaises?
  }

  function Losses(steps: seq<Step>): nat {
    if steps == [] then 0 else
      Losses(steps[..|steps| - 1]) + if Loses(steps[|steps| - 1]) then 1 else 0
  }

  /**
   * Any run of a new pool, with the steps of its threads in any order; a step that no thread can take in
   * the state reached is passed over.  `taken` are the steps that were taken.
   */
  method Run(size: nat, steps: seq<Step>) returns (pool: Pool, taken: seq<Step>)
    requires size >= 1
    ensures fresh(pool) && pool.Valid() && pool.size == size
    ensures pool.Lost() == Losses(taken) <= size
    ensures pool.closed && pool.Quiet() ==>
              (pool.created == 0 <==> forall k :: 0 <= k < |taken| ==> !Loses(taken[k]))
    ensures Losses(taken) == size ==> pool.available == [] && pool.held == map[] && pool.opening == {}
  {
    hide Pool.Valid, Pool.Quiet, Pool.Enabled;
    pool := new Pool(size);
    taken := [];
    for k := 0 to |steps|
      invariant fresh(pool) && pool.Valid() && pool.size == size
      invariant pool.Lost() == Losses(taken)
    {
      if pool.Enabled(steps[k]) {
        pool.Take(steps[k]);
        assert (taken + [steps[k]])[..|taken|] == taken;
        taken := taken + [steps[k]];
      }
    }
    NoLoss(taken);
    pool.LostBound();
    if pool.closed && pool.Quiet() { pool.Drained(); }
    if Losses(taken) == size { pool.Starved(); }
  }

  lemma {:induction false} NoLoss(steps: seq<Step>)
    ensures Losses(steps) == 0 <==> forall k :: 0 <= k < |steps| ==> !Loses(steps[k])
  {
    if steps != [] { NoLoss(steps[..|steps| - 1]); }
  }

  /** A borrower finds no idle connection and room to open one. */
  method OpenOne(pool: Pool, borrower: nat, connection: nat)
    requires pool.Valid() && !pool.closed && pool.available == [] && |pool.held| + |pool.opening| + pool.Lost() < pool.size
    requires borrower !in pool.held && borrower !in pool.opening && connection !in pool.open
    modifies pool`available, pool`created, pool`held, pool`entering, pool`opening, pool`open
    ensures pool.Valid() && pool.available == [] && pool.opening == old(pool.opening) && pool.entering == old(pool.entering)
    ensures pool.held == old(pool.held)[borrower := connection] && pool.open == old(pool.open) + {connection}
  {
    hide Pool.Valid, Pool.Quiet;
    var outcome := pool.Acquire(borrower);
    assert outcome == Reserved;
    pool.Opened(borrower, connection);
  }

  /** A borrower takes an idle connection, and its search is cancelled before the block. */
  method ReuseCancelled(pool: Pool, borrower: nat)
    requires pool.Valid() && !pool.closed && pool.available != []
    requires pool.held == map[] && pool.opening == {} && pool.entering == {}
    modifies pool
    ensures pool.Valid() && !pool.closed && pool.held == map[] && pool.opening == {} && pool.entering == {}
    ensures |pool.available| == |old(pool.available)| - 1
    ensures pool.cancelled == old(pool.cancelled) + 1 && pool.raised == old(pool.raised)
  {
    hide Pool.Valid, Pool.Quiet;
    var outcome := pool.Acquire(borrower);
    assert outcome.Reused?;
    pool.CancelReuse(borrower);
  }

  /** With two slots, two reuses cancelled before their blocks leave a third borrower waiting for nobody. */
  method TwoCancellations() returns (pool: Pool, outcome: Outcome)
    ensures fresh(pool) && pool.Valid() && !pool.closed && outcome == MustWait
    ensures pool.held == map[] && pool.opening == {} && pool.cancelled == pool.size == 2
  {
    hide Pool.Valid, Pool.Quiet;
    pool := FilledPool();
    ReuseCancelled(pool, 0);
    ReuseCancelled(pool, 1);
    outcome := pool.Acquire(2);
  }

  /** Two borrowers have each opened a connection. */
  method FullPool() returns (pool: Pool)
    ensures fresh(pool) && pool.Valid() && pool.size == 2 && !pool.closed && pool.available == []
    ensures pool.held == map[0 := 0, 1 := 1] && pool.opening == {} && pool.entering == {}
    ensures pool.cancelled == 0 && pool.raised == 0
  {
    hide Pool.Valid;
    pool := new Pool(2);
    OpenOne(pool, 0, 0);
    assert pool.held == map[0 := 0] && |pool.held| == 1;
    OpenOne(pool, 1, 1);
  }

  /** Both have handed it back. */
  method FilledPool() returns (pool: Pool)
    ensures fresh(pool) && pool.Valid() && pool.size == 2 && !pool.closed && |pool.available| == 2
    ensures pool.held == map[] && pool.opening == {} && pool.entering == {} && pool.cancelled == 0 && pool.raised == 0
  {
    hide Pool.Valid;
    pool := FullPool();
    pool.Return(0);
    pool.Return(1);
  }
}
