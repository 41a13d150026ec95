/** The driver's results file doubles as its cache: what a run leaves out, and what the next repairs. */
module ScanCache {
  import opened ByteSeq
  import opened Collector

  /** The size each path was last scanned at; a row that records a failure is no result. */
  function Done(rows: seq<Row>): map<string, nat> {
    if rows == [] then map[]
    else
      var front, last := rows[..|rows| - 1], rows[|rows| - 1];
      if last.verdict == ERROR then Done(front) else Done(front)[last.item.path := last.item.size]
  }

  predicate Cached(done: map<string, nat>, x: Item) { x.path in done && done[x.path] == x.size }

  method LoadDone(rows: seq<Row>) returns (done: map<string, nat>)
    ensures done == Done(rows)
  {
    done := map[];
    assert rows[..|rows|] == rows;
    for i := 0 to |rows|
      invariant done == Done(rows[..i])
    {
      assert rows[..i + 1][..i] == rows[..i];
      if rows[i].verdict != ERROR { done := done[rows[i].item.path := rows[i].item.size]; }
    }
  }

  /** A file to be scanned: listed, there, and not scanned at this size before. */
  predicate Wanted(paths: seq<string>, sizeOf: string -> Option<nat>, done: map<string, nat>, x: Item) {
    x.path in paths && sizeOf(x.path) == Some(x.size) && !Cached(done, x)
  }

  ghost predicate IsTodo(todo: seq<Item>, paths: seq<string>, sizeOf: string -> Option<nat>, done: map<string, nat>) {
    forall x :: x in todo <==> Wanted(paths, sizeOf, done, x)
  }

  /** The listed paths that can be measured, each time they are listed, by whether they are cached. */
  function Measured(paths: seq<string>, sizeOf: string -> Option<nat>, done: map<string, nat>, cached: bool): seq<Item> {
    if paths == [] then []
    else
      var front, p := Measured(paths[..|paths| - 1], sizeOf, done, cached), paths[|paths| - 1];
      if sizeOf(p).Some? && Cached(done, Item(p, sizeOf(p).value)) == cached then front + [Item(p, sizeOf(p).value)] else front
  }

  /** The files to scan, in the order listed, and how many the cache answers; one that cannot be
      measured is neither. */
  method MakeTodo(paths: seq<string>, sizeOf: string -> Option<nat>, done: map<string, nat>) returns (todo: seq<Item>, skipped: nat)
    ensures todo == Measured(paths, sizeOf, done, false) && IsTodo(todo, paths, sizeOf, done)
    ensures skipped == |Measured(paths, sizeOf, done, true)|
  {
    todo, skipped := [], 0;
    assert paths[..|paths|] == paths;
    for i := 0 to |paths|
      invariant IsTodo(todo, paths[..i], sizeOf, done) && todo == Measured(paths[..i], sizeOf, done, false)
      invariant skipped == |Measured(paths[..i], sizeOf, done, true)|
    {
      var p := paths[i];
      assert paths[..i + 1] == paths[..i] + [p] && paths[..i + 1][..i] == paths[..i];
      var size := sizeOf(p);
      if size.Some? {
        if p in done && done[p] == size.value {
          skipped := skipped + 1;
        } else {
          todo := todo + [Item(p, size.value)];
        }
      }
    }
  }

  /** Rows that all record the size a path has. */
  predicate Sized(rows: seq<Row>, p: string, size: nat) { forall r :: r in rows && r.item.path == p ==> r.item.size == size }

  /** Some row is a result for the path. */
  predicate Answered(rows: seq<Row>, p: string) { exists r :: r in rows && r.item.path == p && r.verdict != ERROR }

  lemma {:induction false} DoneAfter(rows: seq<Row>, more: seq<Row>, p: string, size: nat)
    requires Sized(more, p, size)
    ensures Answered(more, p) ==> p in Done(rows + more) && Done(rows + more)[p] == size
    ensures !Answered(more, p) ==> (p in Done(rows + more) <==> p in Done(rows))
    ensures !Answered(more, p) && p in Done(rows) ==> Done(rows + more)[p] == Done(rows)[p]
    decreases |more|
  {
    if more == [] {
      assert rows + more == rows;
    } else {
      var front, last := more[..|more| - 1], more[|more| - 1];
      assert last in more && forall r :: r in front ==> r in more;
      DoneAfter(rows, front, p, size);
      assert (rows + more)[..|rows + more| - 1] == rows + front && (rows + more)[|rows + more| - 1] == last;
      assert forall r :: r in more ==> r in front || r == last;
    }
  }

  /** After a run, its files unchanged, the next run scans exactly those whose every row failed:
      an outage is repaired and nothing already answered is scanned again. */
  lemma RerunRepairs(rows: seq<Row>, paths: seq<string>, sizeOf: string -> Option<nat>, todo: seq<Item>, written: seq<Row>, x: Item)
    requires IsTodo(todo, paths, sizeOf, Done(rows)) && multiset(ItemsOf(written)) == multiset(todo)
    ensures Wanted(paths, sizeOf, Done(rows + written), x) <==>
            x in todo && forall r :: r in written && r.item == x ==> r.verdict == ERROR
  {
    if sizeOf(x.path) == Some(x.size) {
      forall r | r in written && r.item.path == x.path ensures r.item == x {
        RowOfTodo(written, todo, r);
        assert Wanted(paths, sizeOf, Done(rows), r.item);
      }
      DoneAfter(rows, written, x.path, x.size);
      if Answered(written, x.path) {
        var r :| r in written && r.item.path == x.path && r.verdict != ERROR;
        assert r.item == x;
      }
    }
  }

  lemma RowOfTodo(written: seq<Row>, todo: seq<Item>, r: Row)
    requires multiset(ItemsOf(written)) == multiset(todo) && r in written
    ensures r.item in todo
  {
    var i :| 0 <= i < |written| && written[i] == r;
    assert ItemsOf(written)[i] == r.item;
    assert r.item in multiset(ItemsOf(written));
  }
}
