/** The scan driver: worker threads drain one queue and post to another, the main thread collects.
    The threads' atomic steps are taken in any order; `Act` says which comes next. */
module Collector {
  import opened ByteSeq

  datatype Item = Item(path: string, size: nat)
  datatype Row = Row(item: Item, verdict: string)

  const ERROR: string := "ERROR"

  /** How many failures are reported one by one. */
  const REPORTED: nat := 5

  /** Where a worker is. From `Caught` to `Reporting` it counts a failure: it waits for the lock, holds
      it, has read the counter, has written it and reports. A report that raises ends it, its row
      never posted. */
  datatype Worker =
    | Unstarted
    | Ready
    | Scanning(item: Item)
    | Caught(item: Item)
    | Holding(item: Item)
    | Loaded(item: Item, count: nat)
    | Reporting(item: Item)
    | Posting(row: Row)
    | Exited
    | Dead(item: Item)

  /** `raised` is the number of scans that have raised an exception so far. */
  datatype State = State(
    total: nat,
    work: seq<Item>,
    workers: seq<Worker>,
    lock: Option<nat>,
    failed: nat,
    raised: nat,
    results: seq<Row>,
    written: seq<Row>)

  datatype Act =
    | Start(w: nat)
    | Get(w: nat)
    | Return(w: nat, verdict: string)
    | Raise(w: nat)
    | Lock(w: nat)
    | Load(w: nat)
    | Store(w: nat)
    | Report(w: nat)
    | Die(w: nat)
    | Post(w: nat)
    | Collect

  function Init(todo: seq<Item>, jobs: int): State {
    State(|todo|, todo, seq(Max(1, jobs), i => Unstarted), None, 0, 0, [], [])
  }

  /** The main thread starts the workers in order before it collects. */
  predicate AllStarted(ws: seq<Worker>) { forall i :: 0 <= i < |ws| ==> !ws[i].Unstarted? }

  function Moved(s: State, w: nat, to: Worker): State
    requires w < |s.workers|
  {
    s.(workers := s.workers[w := to])
  }

  /** The state after a step, or None if the step cannot be taken. */
  function Next(s: State, a: Act): Option<State> {
    if a.Collect? then
      if AllStarted(s.workers) && |s.written| < s.total && s.results != []
      then Some(s.(results := s.results[1..], written := s.written + [s.results[0]])) else None
    else if a.w >= |s.workers| then None
    else match (s.workers[a.w], a)
      case (Unstarted, Start(w)) => if AllStarted(s.workers[..w]) then Some(Moved(s, w, Ready)) else None
      case (Ready, Get(w)) =>
        if s.work == [] then Some(Moved(s, w, Exited))
        else Some(Moved(s, w, Scanning(s.work[0])).(work := s.work[1..]))
      case (Scanning(item), Return(w, verdict)) => Some(Moved(s, w, Posting(Row(item, verdict))))
      case (Scanning(item), Raise(w)) => Some(Moved(s, w, Caught(item)).(raised := s.raised + 1))
      case (Caught(item), Lock(w)) => if s.lock.None? then Some(Moved(s, w, Holding(item)).(lock := Some(w))) else None
      case (Holding(item), Load(w)) => Some(Moved(s, w, Loaded(item, s.failed)))
      case (Loaded(item, n), Store(w)) => Some(Moved(s, w, Reporting(item)).(failed := n + 1))
      case (Reporting(item), Report(w)) => Some(Moved(s, w, Posting(Row(item, ERROR))).(lock := None))
      case (Reporting(item), Die(w)) => if s.failed <= REPORTED then Some(Moved(s, w, Dead(item)).(lock := None)) else None
      case (Posting(row), Post(w)) => Some(Moved(s, w, Ready).(results := s.results + [row]))
      case _ => None
  }

  // ---------------------------------------------------------------- conservation

  function InHand(w: Worker): Option<Item> {
    match w
    case Scanning(item) => Some(item)
    case Caught(item) => Some(item)
    case Holding(item) => Some(item)
    case Loaded(item, _) => Some(item)
    case Reporting(item) => Some(item)
    case Dead(item) => Some(item)
    case Posting(row) => Some(row.item)
    case _ => None
  }

  function Holds(x: Item): Worker -> nat { w => if InHand(w) == Some(x) then 1 else 0 }

  function Sum(ws: seq<Worker>, f: Worker -> nat): nat {
    if ws == [] then 0 else Sum(ws[..|ws| - 1], f) + f(ws[|ws| - 1])
  }

  lemma {:induction false} SumMoved(ws: seq<Worker>, f: Worker -> nat, w: nat, to: Worker)
    requires w < |ws|
    ensures Sum(ws[w := to], f) + f(ws[w]) == Sum(ws, f) + f(to)
    decreases |ws|
  {
    var n := |ws| - 1;
    if w == n {
      assert ws[w := to][..n] == ws[..n];
    } else {
      assert ws[w := to][..n] == ws[..n][w := to];
      SumMoved(ws[..n], f, w, to);
    }
  }

  function ItemsOf(rows: seq<Row>): seq<Item> { seq(|rows|, i requires 0 <= i < |rows| => rows[i].item) }

  function Count(items: seq<Item>, x: Item): nat { multiset(items)[x] }

  /** How often an item is anywhere: waiting, in a worker's hands, posted, or written. */
  function Anywhere(s: State, x: Item): nat {
    Count(s.work, x) + Sum(s.workers, Holds(x)) + Count(ItemsOf(s.results), x) + Count(ItemsOf(s.written), x)
  }

  lemma CountTake(items: seq<Item>, x: Item)
    requires items != []
    ensures Count(items, x) == Count(items[1..], x) + if items[0] == x then 1 else 0
  {
    assert items == [items[0]] + items[1..];
  }

  lemma CountPush(items: seq<Item>, item: Item, x: Item)
    ensures Count(items + [item], x) == Count(items, x) + if item == x then 1 else 0
  {}

  lemma RowsPush(rows: seq<Row>, row: Row)
    ensures ItemsOf(rows + [row]) == ItemsOf(rows) + [row.item]
    ensures rows != [] ==> ItemsOf(rows)[1..] == ItemsOf(rows[1..])
  {}

  /** No step loses, repeats or makes up an item. */
  lemma StepConserves(s: State, a: Act, x: Item)
    requires Next(s, a).Some?
    ensures Anywhere(Next(s, a).value, x) == Anywhere(s, x)
  {
    hide Sum, Count, ItemsOf;
    var t := Next(s, a).value;
    if a.Collect? {
      RowsPush(s.written, s.results[0]);
      CountPush(ItemsOf(s.written), s.results[0].item, x);
      RowsPush(s.results, s.results[0]);
      RowsFirst(s.results);
      CountTake(ItemsOf(s.results), x);
    } else {
      SumMoved(s.workers, Holds(x), a.w, t.workers[a.w]);
      if a.Get? && s.work != [] { CountTake(s.work, x); }
      if a.Post? {
        RowsPush(s.results, s.workers[a.w].row);
        CountPush(ItemsOf(s.results), s.workers[a.w].row.item, x);
      }
    }
  }

  lemma RowsFirst(rows: seq<Row>)
    requires rows != []
    ensures ItemsOf(rows) != [] && ItemsOf(rows)[0] == rows[0].item
  {}

  // ---------------------------------------------------------------- the failure counter

  predicate Locked(w: Worker) { w.Holding? || w.Loaded? || w.Reporting? }

  function Counting(w: Worker): nat { if w.Caught? || w.Holding? || w.Loaded? then 1 else 0 }

  /** The lock is held by the worker it names and no other, which has read the counter as it is. */
  predicate LockHeld(s: State) {
    && (forall i :: 0 <= i < |s.workers| ==> (Locked(s.workers[i]) <==> s.lock == Some(i)))
    && (s.lock.Some? ==> s.lock.value < |s.workers|)
    && (forall i :: 0 <= i < |s.workers| && s.workers[i].Loaded? ==> s.workers[i].count == s.failed)
  }

  predicate Counted(s: State) { s.failed + Sum(s.workers, Counting) == s.raised }

  lemma StepLocks(s: State, a: Act)
    requires Next(s, a).Some? && LockHeld(s)
    ensures LockHeld(Next(s, a).value)
  {}

  /** Reading and writing the counter are two steps, and still no failure is lost. */
  lemma StepCounts(s: State, a: Act)
    requires Next(s, a).Some? && LockHeld(s) && Counted(s)
    ensures Counted(Next(s, a).value)
  {
    hide Sum;
    if !a.Collect? {
      SumMoved(s.workers, Counting, a.w, Next(s, a).value.workers[a.w]);
    }
  }

  // ---------------------------------------------------------------- progress

  /** A worker leaves only when there is no work left, and none ever comes. */
  predicate LeftForGood(s: State) { (exists i :: 0 <= i < |s.workers| && s.workers[i].Exited?) ==> s.work == [] }

  predicate StartedInOrder(s: State) {
    forall i, j :: 0 <= i < j < |s.workers| && s.workers[i].Unstarted? ==> s.workers[j].Unstarted?
  }

  /** What every step keeps. */
  ghost predicate Inv(todo: seq<Item>, s: State) {
    && s.total == |todo| && (forall x :: Anywhere(s, x) == Count(todo, x))
    && LockHeld(s) && Counted(s) && LeftForGood(s) && StartedInOrder(s) && s.workers != []
  }

  lemma StepLeaves(s: State, a: Act)
    requires Next(s, a).Some? && LeftForGood(s)
    ensures LeftForGood(Next(s, a).value) && |Next(s, a).value.work| <= |s.work|
  {
    var t := Next(s, a).value;
    if exists i :: 0 <= i < |t.workers| && t.workers[i].Exited? {
      var i :| 0 <= i < |t.workers| && t.workers[i].Exited?;
      assert s.workers[i].Exited? || s.work == [];
    }
  }

  lemma StepStarts(s: State, a: Act)
    requires Next(s, a).Some? && StartedInOrder(s)
    ensures StartedInOrder(Next(s, a).value)
  {
    var t := Next(s, a).value;
    forall i, j | 0 <= i < j < |t.workers| && t.workers[i].Unstarted? ensures t.workers[j].Unstarted? {
      assert s.workers[i].Unstarted?;
    }
  }

  lemma StepInv(todo: seq<Item>, s: State, a: Act)
    requires Inv(todo, s) && Next(s, a).Some?
    ensures Inv(todo, Next(s, a).value)
  {
    hide Anywhere, Count, LockHeld, Counted, LeftForGood, StartedInOrder;
    forall x ensures Anywhere(Next(s, a).value, x) == Count(todo, x) { StepConserves(s, a, x); }
    StepLocks(s, a);
    StepCounts(s, a);
    StepLeaves(s, a);
    StepStarts(s, a);
  }

  /** Steps a worker can still take on its own account. */
  function Rank(w: Worker): nat {
    match w
    case Unstarted => 2
    case Ready => 1
    case Scanning(_) => 8
    case Caught(_) => 7
    case Holding(_) => 6
    case Loaded(_, _) => 5
    case Reporting(_) => 4
    case Posting(_) => 3
    case Exited => 0
    case Dead(_) => 0
  }

  function StepsLeft(s: State): nat { 8 * |s.work| + Sum(s.workers, Rank) + |s.results| }

  lemma StepNearer(s: State, a: Act)
    requires Next(s, a).Some?
    ensures StepsLeft(Next(s, a).value) < StepsLeft(s)
  {
    hide Sum;
    if !a.Collect? {
      SumMoved(s.workers, Rank, a.w, Next(s, a).value.workers[a.w]);
    }
  }


  // ---------------------------------------------------------------- whole runs

  function Run(s: State, acts: seq<Act>): Option<State> {
    if acts == [] then Some(s)
    else
      var t := Run(s, acts[..|acts| - 1]);
      if t.None? then None else Next(t.value, acts[|acts| - 1])
  }

  lemma {:induction false} SumUnstarted(ws: seq<Worker>, f: Worker -> nat)
    requires forall i :: 0 <= i < |ws| ==> ws[i].Unstarted?
    ensures Sum(ws, f) == |ws| * f(Unstarted)
  {
    if ws != [] {
      SumUnstarted(ws[..|ws| - 1], f);
      Distribute(|ws| - 1, f(Unstarted));
    }
  }

  lemma Distribute(n: nat, k: nat)
    ensures (n + 1) * k == n * k + k
  {}

  lemma InitInv(todo: seq<Item>, jobs: int)
    ensures Inv(todo, Init(todo, jobs)) && StepsLeft(Init(todo, jobs)) == 8 * |todo| + 2 * Max(1, jobs)
  {
    hide Sum;
    var s := Init(todo, jobs);
    SumUnstarted(s.workers, Counting);
    SumUnstarted(s.workers, Rank);
    forall x ensures Anywhere(s, x) == Count(todo, x) { SumUnstarted(s.workers, Holds(x)); }
  }

  /** However the threads are scheduled, every run keeps the invariant and is bounded. */
  lemma {:induction false} RunKeeps(todo: seq<Item>, jobs: int, acts: seq<Act>)
    requires Run(Init(todo, jobs), acts).Some?
    ensures var s := Run(Init(todo, jobs), acts).value;
            Inv(todo, s) && |acts| + StepsLeft(s) <= 8 * |todo| + 2 * Max(1, jobs)
    decreases |acts|
  {
    hide Inv, StepsLeft, Next, Init;
    InitInv(todo, jobs);
    if acts != [] {
      var front, last := acts[..|acts| - 1], acts[|acts| - 1];
      RunKeeps(todo, jobs, front);
      var t := Run(Init(todo, jobs), front).value;
      StepInv(todo, t, last);
      StepNearer(t, last);
    }
  }

  predicate AllExited(ws: seq<Worker>) { forall i :: 0 <= i < |ws| ==> ws[i].Exited? }

  predicate NoneDead(ws: seq<Worker>) { forall i :: 0 <= i < |ws| ==> !ws[i].Dead? }

  ghost predicate Stuck(s: State) { forall a :: Next(s, a).None? }

  /** A worker that is neither gone nor dead, or the lock's holder, can always take a step. */
  lemma WorkerSteps(s: State, i: nat)
    requires LockHeld(s) && StartedInOrder(s) && i < |s.workers| && !s.workers[i].Exited? && !s.workers[i].Dead?
    ensures exists a: Act :: !a.Collect? && Next(s, a).Some?
  {
    match s.workers[i] {
      case Unstarted =>
        var k := FirstUnstarted(s.workers, i);
        assert Next(s, Start(k)).Some?;
      case Ready => assert Next(s, Get(i)).Some?;
      case Scanning(_) => assert Next(s, Raise(i)).Some?;
      case Caught(_) =>
        if s.lock.None? {
          assert Next(s, Lock(i)).Some?;
        } else {
          var k := s.lock.value;
          assert Locked(s.workers[k]);
          assert Next(s, if s.workers[k].Holding? then Load(k) else if s.workers[k].Loaded? then Store(k) else Report(k)).Some?;
        }
      case Holding(_) => assert Next(s, Load(i)).Some?;
      case Loaded(_, _) => assert Next(s, Store(i)).Some?;
      case Reporting(_) => assert Next(s, Report(i)).Some?;
      case Posting(_) => assert Next(s, Post(i)).Some?;
    }
  }

  function FirstUnstarted(ws: seq<Worker>, i: nat): (k: nat)
    requires i < |ws| && ws[i].Unstarted?
    ensures k <= i && ws[k].Unstarted? && AllStarted(ws[..k])
  {
    if j: nat :| j < i && ws[j].Unstarted? then FirstUnstarted(ws, j) else i
  }

  lemma {:induction false} SumExited(ws: seq<Worker>, f: Worker -> nat)
    requires AllExited(ws) && f(Exited) == 0
    ensures Sum(ws, f) == 0
  {
    if ws != [] { SumExited(ws[..|ws| - 1], f); }
  }

  /** Once all workers have left, every item is posted or written. */
  lemma ExitedAccounts(todo: seq<Item>, s: State)
    requires Inv(todo, s) && AllExited(s.workers)
    ensures multiset(ItemsOf(s.results)) + multiset(ItemsOf(s.written)) == multiset(todo)
    ensures |s.results| + |s.written| == s.total && s.failed == s.raised
  {
    hide Sum;
    assert s.workers[0].Exited? && s.work == [];
    SumExited(s.workers, Counting);
    forall x: Item ensures (multiset(ItemsOf(s.results)) + multiset(ItemsOf(s.written)))[x] == multiset(todo)[x] {
      SumExited(s.workers, Holds(x));
      assert Anywhere(s, x) == Count(todo, x);
    }
    assert multiset(ItemsOf(s.results)) + multiset(ItemsOf(s.written)) == multiset(todo);
    assert |multiset(ItemsOf(s.results))| + |multiset(ItemsOf(s.written))| == |multiset(todo)|;
  }

  /** While a row is missing and none is posted, some worker can still move, unless one has died: the
      collector waits for a row that cannot come only where a report raised. */
  lemma NeverWaitsInVain(todo: seq<Item>, s: State)
    requires Inv(todo, s) && |s.written| < s.total && s.results == [] && NoneDead(s.workers)
    ensures exists a: Act :: !a.Collect? && Next(s, a).Some?
  {
    if AllExited(s.workers) {
      ExitedAccounts(todo, s);
    } else {
      var i: nat :| i < |s.workers| && !s.workers[i].Exited?;
      WorkerSteps(s, i);
    }
  }

  /** And there it does, for ever: the row of a dead worker's file is never written. */
  lemma DeadIsMissed(todo: seq<Item>, s: State, i: nat)
    requires Inv(todo, s) && i < |s.workers| && s.workers[i].Dead?
    ensures |s.written| < s.total && multiset(ItemsOf(s.written)) != multiset(todo)
  {
    hide Sum, LockHeld, LeftForGood, StartedInOrder;
    var x := s.workers[i].item;
    SumAtLeast(s.workers, Holds(x), i);
    assert Anywhere(s, x) == Count(todo, x);
    assert multiset(ItemsOf(s.written))[x] < multiset(todo)[x];
    if |s.written| >= s.total { WrittenFits(todo, s); }
  }

  /** No more rows are written than there are files. */
  lemma WrittenFits(todo: seq<Item>, s: State)
    requires Inv(todo, s) && |s.written| >= s.total
    ensures multiset(ItemsOf(s.written)) == multiset(todo)
  {
    hide Sum, LockHeld, LeftForGood, StartedInOrder;
    var rows := ItemsOf(s.written);
    forall x: Item ensures multiset(rows)[x] <= multiset(todo)[x] {
      assert Anywhere(s, x) == Count(todo, x);
    }
    PartSize(multiset(rows), multiset(todo));
    FullPart(multiset(rows), multiset(todo));
  }

  lemma PartSize(a: multiset<Item>, b: multiset<Item>)
    requires a <= b
    ensures |a| <= |b|
  {
    assert b == a + (b - a);
  }

  /** In a state nothing can move, every file has exactly one row, every worker has left and the counter
      is the number of scans that failed, if and only if no worker has died. */
  lemma StuckIsDone(todo: seq<Item>, s: State)
    requires Inv(todo, s) && Stuck(s)
    ensures NoneDead(s.workers) <==> multiset(ItemsOf(s.written)) == multiset(todo)
    ensures NoneDead(s.workers) ==> AllExited(s.workers) && s.results == [] && s.failed == s.raised
  {
    hide Next, LockHeld, StartedInOrder, Anywhere, ItemsOf;
    if !NoneDead(s.workers) {
      var i: nat :| i < |s.workers| && s.workers[i].Dead?;
      DeadIsMissed(todo, s, i);
    } else {
      if !AllExited(s.workers) {
        var i: nat :| i < |s.workers| && !s.workers[i].Exited?;
        WorkerSteps(s, i);
        assert false;
      }
      ExitedAccounts(todo, s);
      if s.results != [] {
        CollectSteps(s);
        assert false;
      }
      NoRows();
    }
  }

  lemma NoRows()
    ensures ItemsOf([]) == []
  {}

  lemma CollectSteps(s: State)
    requires AllExited(s.workers) && s.results != [] && |s.written| < s.total
    ensures Next(s, Collect).Some?
  {}

  /** A worker dies only by a report that raises. */
  lemma {:induction false} DeathsAreDies(todo: seq<Item>, jobs: int, acts: seq<Act>)
    requires Run(Init(todo, jobs), acts).Some?
    ensures NoneDead(Run(Init(todo, jobs), acts).value.workers) <==> forall i :: 0 <= i < |acts| ==> !acts[i].Die?
    decreases |acts|
  {
    hide Init;
    InitAlive(todo, jobs);
    if acts != [] {
      var front, last := acts[..|acts| - 1], acts[|acts| - 1];
      DeathsAreDies(todo, jobs, front);
      StepDeaths(Run(Init(todo, jobs), front).value, last);
      assert forall i :: 0 <= i < |front| ==> front[i] == acts[i];
    }
  }

  lemma InitAlive(todo: seq<Item>, jobs: int)
    ensures NoneDead(Init(todo, jobs).workers)
  {}

  lemma StepDeaths(s: State, a: Act)
    requires Next(s, a).Some?
    ensures NoneDead(Next(s, a).value.workers) <==> NoneDead(s.workers) && !a.Die?
  {
    var t := Next(s, a).value;
    if !a.Collect? {
      assert forall i :: 0 <= i < |s.workers| && i != a.w ==> t.workers[i] == s.workers[i];
      assert t.workers[a.w].Dead? <==> a.Die?;
      assert !s.workers[a.w].Dead?;
    }
  }

  /** Every run ends, within a bound, and where it cannot go on there is exactly one row for each file
      if and only if no report raised. */
  lemma RunEnds(todo: seq<Item>, jobs: int, acts: seq<Act>)
    requires Run(Init(todo, jobs), acts).Some?
    ensures |acts| <= 8 * |todo| + 2 * Max(1, jobs)
    ensures var s := Run(Init(todo, jobs), acts).value;
            Stuck(s) ==>
              && (multiset(ItemsOf(s.written)) == multiset(todo) <==> forall i :: 0 <= i < |acts| ==> !acts[i].Die?)
              && ((forall i :: 0 <= i < |acts| ==> !acts[i].Die?) ==> s.failed == s.raised && AllExited(s.workers))
  {
    hide Inv, Stuck, Run, Init;
    RunKeeps(todo, jobs, acts);
    DeathsAreDies(todo, jobs, acts);
    var s := Run(Init(todo, jobs), acts).value;
    if Stuck(s) { StuckIsDone(todo, s); }
  }

  lemma {:induction false} SumAtLeast(ws: seq<Worker>, f: Worker -> nat, i: nat)
    requires i < |ws|
    ensures f(ws[i]) <= Sum(ws, f)
    decreases |ws|
  {
    if i < |ws| - 1 { SumAtLeast(ws[..|ws| - 1], f, i); }
  }

  lemma {:induction false} SumZero(ws: seq<Worker>, f: Worker -> nat)
    requires forall i :: 0 <= i < |ws| ==> f(ws[i]) == 0
    ensures Sum(ws, f) == 0
  {
    if ws != [] { SumZero(ws[..|ws| - 1], f); }
  }

  lemma FullPart(a: multiset<Item>, b: multiset<Item>)
    requires a <= b && |a| == |b|
    ensures a == b
  {
    assert b == a + (b - a);
    assert |b - a| == 0;
  }

  /** When the collector stops counting, whatever the workers are doing, the rows are exactly one for
      each file and no failure is still to be counted. */
  lemma CollectorDone(todo: seq<Item>, s: State)
    requires Inv(todo, s) && |s.written| == s.total
    ensures multiset(ItemsOf(s.written)) == multiset(todo) && s.failed == s.raised
  {
    hide Sum, LockHeld, LeftForGood, StartedInOrder;
    var rows := ItemsOf(s.written);
    forall x: Item ensures multiset(rows)[x] <= multiset(todo)[x] {
      assert Anywhere(s, x) == Count(todo, x);
    }
    FullPart(multiset(rows), multiset(todo));
    forall i | 0 <= i < |s.workers| ensures Counting(s.workers[i]) == 0 {
      if Counting(s.workers[i]) > 0 {
        var x := InHand(s.workers[i]).value;
        assert Anywhere(s, x) == Count(todo, x);
        SumAtLeast(s.workers, Holds(x), i);
      }
    }
    SumZero(s.workers, Counting);
  }
}
