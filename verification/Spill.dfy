/** Where a normalised view or a streamed member is written: memory, or a file the host gives, a
    batch at a time. What is read back is every byte handed over, or an error. */
module Spill {
  import opened ByteSeq

  /** How the host answers a write: it keeps the bytes, or keeps some beginning of them and says no. */
  datatype Fate = Kept | Lost(part: nat)

  datatype Result<T> = Ok(value: T) | Err

  /** The host's file; `fate` is what becomes of each write, in order. */
  class SpillFile {
    const fate: nat -> Fate
    var contents: Bytes
    var writes: nat

    constructor (fate: nat -> Fate)
      ensures this.fate == fate && contents == [] && writes == 0
    {
      this.fate := fate;
      contents, writes := [], 0;
    }

    method Write(bytes: Bytes) returns (ok: bool)
      modifies this
      ensures writes == old(writes) + 1 && ok == fate(old(writes)).Kept?
      ensures ok ==> contents == old(contents) + bytes
    {
      match fate(writes) {
        case Kept =>
          contents := contents + bytes;
          ok := true;
        case Lost(part) =>
          contents := contents + bytes[..Min(part, |bytes|)];
          ok := false;
      }
      writes := writes + 1;
    }
  }

  function LastOf(s: Bytes): Option<byte> { if s == [] then None else Some(s[|s| - 1]) }

  /** What the views are written to. Without a file it is memory: everything stays in the batch. */
  class Out {
    const file: Option<SpillFile>
    const chunk: nat
    var batch: Bytes
    var last: Option<byte>
    var failed: bool
    /** Every byte handed over so far. */
    ghost var taken: Bytes

    ghost predicate Valid()
      reads this, if file.Some? then {file.value} else {}
    {
      && (file.None? ==> !failed && batch == taken)
      && (file.Some? ==>
            && |batch| < Max(chunk, 1)
            && (failed <==> exists k :: 0 <= k < file.value.writes && file.value.fate(k).Lost?)
            && (!failed ==> file.value.contents + batch == taken))
    }

    ghost function Files(): set<object> { if file.Some? then {file.value} else {} }

    constructor Memory()
      ensures Valid() && file == None && taken == [] && last == None
    {
      file, chunk := None, 0;
      batch, last, failed, taken := [], None, false, [];
    }

    constructor OnFile(file: SpillFile, chunk: nat)
      requires file.contents == [] && file.writes == 0
      ensures Valid() && this.file == Some(file) && this.chunk == chunk && taken == [] && last == None && !failed
    {
      this.file, this.chunk := Some(file), chunk;
      batch, last, failed, taken := [], None, false, [];
    }

    method Flush()
      requires file.Some?
      requires failed <==> exists k :: 0 <= k < file.value.writes && file.value.fate(k).Lost?
      requires !failed ==> file.value.contents + batch == taken
      modifies `batch, `failed, file.value
      ensures Valid() && batch == []
      ensures old(failed) ==> failed
    {
      if !failed && batch != [] {
        ghost var n := file.value.writes;
        var ok := file.value.Write(batch);
        assert failed || !ok <==> exists k :: 0 <= k < file.value.writes && file.value.fate(k).Lost? by {
          if !ok { assert file.value.fate(n).Lost?; }
        }
        failed := !ok;
      }
      batch := [];
    }

    /** One byte of a view. */
    method Push(b: byte)
      requires Valid()
      modifies this, Files()
      ensures Valid() && taken == old(taken) + [b] && last == Some(b)
    {
      batch := batch + [b];
      last := Some(b);
      taken := taken + [b];
      if file.Some? {
        assert !failed ==> file.value.contents + batch == taken;
        if |batch| >= chunk { Flush(); }
      }
    }

    /** A run of bytes of a member. */
    method Append(bytes: Bytes)
      requires Valid()
      modifies this, Files()
      ensures Valid() && taken == old(taken) + bytes && last == old(last)
      ensures old(failed) ==> failed
    {
      batch := batch + bytes;
      taken := taken + bytes;
      if file.Some? {
        assert !failed ==> file.value.contents + batch == taken;
        if |batch| >= chunk { Flush(); }
      }
    }

    /** What was written, to read back: all of it, or an error exactly when a write failed or the
        file cannot be read. */
    method Finish(readable: bool) returns (r: Result<Bytes>)
      requires Valid() && file.Some?
      modifies this, Files()
      ensures Valid() && taken == old(taken)
      ensures r.Ok? ==> r.value == taken
      ensures r.Err? <==> !readable || exists k :: 0 <= k < file.value.writes && file.value.fate(k).Lost?
    {
      Flush();
      if failed || !readable { return Err; }
      return Ok(file.value.contents);
    }
  }

  // ---------------------------------------------------------------- a stream

  /** What one read of a stream gives. */
  datatype ReadResult = Data(bytes: Bytes) | End | Interrupted | Failed

  datatype StreamResult = Spilled(bytes: Bytes) | ReadFailed | SpillFailed

  /** What a stream holds before it ends, or None if reading it fails; a stream ends where its answers do. */
  function StreamBytes(answers: seq<ReadResult>): Option<Bytes> {
    if answers == [] || answers[0].End? || answers[0] == Data([]) then Some([])
    else if answers[0].Failed? then None
    else
      var rest := StreamBytes(answers[1..]);
      if answers[0].Interrupted? then rest else Behind(answers[0].bytes, rest)
  }

  function Behind(first: Bytes, rest: Option<Bytes>): Option<Bytes> {
    if rest.None? then rest else Some(first + rest.value)
  }

  lemma BehindBehind(a: Bytes, b: Bytes, rest: Option<Bytes>)
    ensures Behind(a, Behind(b, rest)) == Behind(a + b, rest)
    ensures Behind([], rest) == rest
  {
    if rest.Some? { assert a + (b + rest.value) == a + b + rest.value && [] + rest.value == rest.value; }
  }

  /** All of a stream written to a new file and read back: all of it or an error, the error a
      reading one only if the stream has one, and none where stream and host give none. */
  method SpillStream(file: Option<SpillFile>, answers: seq<ReadResult>, chunk: nat, readable: bool) returns (r: StreamResult)
    requires file.Some? ==> file.value.contents == [] && file.value.writes == 0
    modifies if file.Some? then {file.value} else {}
    ensures r.Spilled? ==> StreamBytes(answers) == Some(r.bytes)
    ensures r.ReadFailed? ==> StreamBytes(answers) == None
    ensures r.SpillFailed? ==> file.None? || !readable || exists k :: 0 <= k < file.value.writes && file.value.fate(k).Lost?
    ensures file.None? ==> r.SpillFailed?
  {
    if file.None? { return SpillFailed; }
    var out := new Out.OnFile(file.value, chunk);
    var i := 0;
    assert answers[0..] == answers;
    BehindBehind([], [], StreamBytes(answers));
    while i < |answers|
      invariant i <= |answers| && out.file == file && out.Valid() && !out.failed && fresh(out)
      invariant StreamBytes(answers) == Behind(out.taken, StreamBytes(answers[i..]))
    {
      ghost var before := out.taken;
      assert answers[i..][1..] == answers[i + 1..];
      match answers[i] {
        case End => break;
        case Data(bytes) =>
          if bytes == [] { break; }
          out.Append(bytes);
          BehindBehind(before, bytes, StreamBytes(answers[i + 1..]));
        case Interrupted =>
        case Failed => return ReadFailed;
      }
      if out.failed { return SpillFailed; }
      i := i + 1;
    }
    assert StreamBytes(answers[i..]) == Some([]) && out.taken + [] == out.taken;
    var f := out.Finish(readable);
    match f {
      case Ok(bytes) => r := Spilled(bytes);
      case Err => r := SpillFailed;
    }
  }
}
