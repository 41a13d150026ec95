/** What the collector writes: the very rows the scans ended with, in the order they were posted. */
module CollectorRows {
  import ByteSeq
  import opened Collector

  /** The row a step makes: what a scan returned, or an error for one whose failure was reported. */
  function MadeBy(s: State, a: Act): seq<Row> {
    match a
    case Return(w, verdict) => if w < |s.workers| && s.workers[w].Scanning? then [Row(s.workers[w].item, verdict)] else []
    case Report(w) => if w < |s.workers| && s.workers[w].Reporting? then [Row(s.workers[w].item, "ERROR")] else []
    case _ => []
  }

  function PostedBy(s: State, a: Act): seq<Row> {
    match a
    case Post(w) => if w < |s.workers| && s.workers[w].Posting? then [s.workers[w].row] else []
    case _ => []
  }

  /** The rows made, and the rows posted, in a run: in order. */
  function Made(s: State, acts: seq<Act>): seq<Row> {
    if acts == [] then []
    else
      var t := Run(s, acts[..|acts| - 1]);
      if t.None? then [] else Made(s, acts[..|acts| - 1]) + MadeBy(t.value, acts[|acts| - 1])
  }

  function Posted(s: State, acts: seq<Act>): seq<Row> {
    if acts == [] then []
    else
      var t := Run(s, acts[..|acts| - 1]);
      if t.None? then [] else Posted(s, acts[..|acts| - 1]) + PostedBy(t.value, acts[|acts| - 1])
  }

  /** Whether a worker has a row in hand. */
  function Awaits(x: Row): Worker -> nat { (w: Worker) => if w.Posting? && w.row == x then 1 else 0 }

  lemma StepQueue(s: State, a: Act)
    requires Next(s, a).Some?
    ensures var t := Next(s, a).value; t.written + t.results == s.written + s.results + PostedBy(s, a)
  {
    var t := Next(s, a).value;
    if a.Collect? {
      assert s.results == [s.results[0]] + t.results;
      ByteSeq.Assoc(s.written, [s.results[0]], t.results);
    } else if a.Post? {
      ByteSeq.Assoc(s.written, s.results, PostedBy(s, a));
    }
  }

  lemma StepRows(s: State, a: Act, x: Row)
    requires Next(s, a).Some?
    ensures Sum(Next(s, a).value.workers, Awaits(x)) + multiset(PostedBy(s, a))[x] == Sum(s.workers, Awaits(x)) + multiset(MadeBy(s, a))[x]
  {
    hide Sum;
    if !a.Collect? {
      SumMoved(s.workers, Awaits(x), a.w, Next(s, a).value.workers[a.w]);
    }
  }

  /** However the threads are scheduled: the rows written and the rows waiting are those posted, in order, and each
      row made is posted once or still in its worker's hands. */
  lemma {:induction false} RowsConserved(todo: seq<Item>, jobs: int, acts: seq<Act>, x: Row)
    requires Run(Init(todo, jobs), acts).Some?
    ensures var s := Run(Init(todo, jobs), acts).value;
            && s.written + s.results == Posted(Init(todo, jobs), acts)
            && multiset(Posted(Init(todo, jobs), acts))[x] + Sum(s.workers, Awaits(x)) == multiset(Made(Init(todo, jobs), acts))[x]
    decreases |acts|
  {
    hide Sum, Next, PostedBy, MadeBy, Init;
    if acts == [] {
      NothingMade(todo, jobs, x);
    } else {
      var front, last := acts[..|acts| - 1], acts[|acts| - 1];
      RowsConserved(todo, jobs, front, x);
      var t := Run(Init(todo, jobs), front).value;
      StepQueue(t, last);
      StepRows(t, last, x);
    }
  }

  lemma NothingMade(todo: seq<Item>, jobs: int, x: Row)
    ensures Init(todo, jobs).written + Init(todo, jobs).results == [] && Sum(Init(todo, jobs).workers, Awaits(x)) == 0
  {
    SumUnstarted(Init(todo, jobs).workers, Awaits(x));
  }

  /** When the collector has counted all rows, what it has written is exactly what the scans ended with. */
  lemma WrittenIsMade(todo: seq<Item>, jobs: int, acts: seq<Act>)
    requires Run(Init(todo, jobs), acts).Some? && |Run(Init(todo, jobs), acts).value.written| == |todo|
    ensures multiset(Run(Init(todo, jobs), acts).value.written) == multiset(Made(Init(todo, jobs), acts))
    ensures Run(Init(todo, jobs), acts).value.written == Posted(Init(todo, jobs), acts)
  {
    hide Sum, Inv, Run, Made, Posted, Init;
    RunKeeps(todo, jobs, acts);
    var s := Run(Init(todo, jobs), acts).value;
    NothingLeft(todo, s);
    assert s.written + [] == s.written;
    forall x ensures multiset(s.written)[x] == multiset(Made(Init(todo, jobs), acts))[x] {
      RowsConserved(todo, jobs, acts, x);
      SumZero(s.workers, Awaits(x));
    }
    RowsConserved(todo, jobs, acts, Row(Item("", 0), ""));
  }

  lemma NothingLeft(todo: seq<Item>, s: State)
    requires Inv(todo, s) && |s.written| == |todo|
    ensures s.results == [] && forall i :: 0 <= i < |s.workers| ==> !s.workers[i].Posting?
  {
    hide Sum, LockHeld, LeftForGood, StartedInOrder;
    CollectorDone(todo, s);
    if s.results != [] {
      var x := s.results[0].item;
      assert Anywhere(s, x) == Count(todo, x);
      RowsFirst(s.results);
    }
    forall i | 0 <= i < |s.workers| ensures !s.workers[i].Posting? {
      if s.workers[i].Posting? {
        var x := s.workers[i].row.item;
        assert Anywhere(s, x) == Count(todo, x);
        SumAtLeast(s.workers, Holds(x), i);
      }
    }
  }
}
