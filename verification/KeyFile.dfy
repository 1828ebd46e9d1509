// The key file of a case, rewritten in place without one generation, or
// destroyed: what is on the disk at every moment, with any step able to fail
// and the machine able to stop between any two.
module KeyFile {
  import opened Common

  type Bytes = seq<bv8>

  const SPACE: bv8 := 32

  /** A file as the disk has it. What was written and not yet forced to the disk
      may be torn in any way by a crash. */
  datatype File =
    | Absent
    | Unsettled
    | Written(bytes: Bytes)
    | Settled(bytes: Bytes)
    | Cutting(bytes: Bytes, length: nat)

  /** What a crash can leave of a file. */
  ghost predicate Leaves(f: File, left: Option<Bytes>) {
    match f
    case Absent => left == None
    case Unsettled => true
    case Written(_) => true
    case Settled(b) => left == Some(b)
    case Cutting(b, n) => left == Some(b) || (n <= |b| && left == Some(b[..n]))
  }

  function Spaces(n: nat): (s: Bytes)
    ensures |s| == n && forall i | 0 <= i < n :: s[i] == SPACE
  {
    if n == 0 then [] else Spaces(n - 1) + [SPACE]
  }

  /** The document, padded to a length that may be longer. */
  function Padded(doc: Bytes, length: nat): (p: Bytes)
    ensures |p| == if length > |doc| then length else |doc|
    ensures p[..|doc|] == doc
  {
    if length > |doc| then doc + Spaces(length - |doc|) else doc
  }

  ghost predicate IsDocument(b: Bytes, was: Bytes, doc: Bytes) {
    b == was || b == doc || exists n: nat :: b == doc + Spaces(n)
  }

  ghost predicate Reads(left: Option<Bytes>, was: Bytes, doc: Bytes) {
    left.Some? && IsDocument(left.value, was, doc)
  }

  datatype Disk = Disk(file: File, pending: File)

  /** Whatever a crash leaves, one of the two names holds a whole document. */
  ghost predicate Recoverable(d: Disk, was: Bytes, doc: Bytes) {
    forall f, p | Leaves(d.file, f) && Leaves(d.pending, p) :: Reads(f, was, doc) || Reads(p, was, doc)
  }

  ghost predicate AlwaysRecoverable(history: seq<Disk>, was: Bytes, doc: Bytes) {
    forall k | 0 <= k < |history| :: Recoverable(history[k], was, doc)
  }

  /** The two states a rewrite goes through: the old document in place, and the
      new one beside it. */
  lemma OldInPlace(d: Disk, was: Bytes, doc: Bytes)
    requires d.file == Settled(was)
    ensures Recoverable(d, was, doc)
  {
  }

  lemma NewBeside(d: Disk, was: Bytes, doc: Bytes)
    requires d.pending == Settled(doc)
    ensures Recoverable(d, was, doc)
  {
  }

  lemma NewInPlace(d: Disk, was: Bytes, doc: Bytes)
    requires d.file == Settled(doc)
    ensures Recoverable(d, was, doc)
  {
  }

  datatype Step =
    | CreatePending | WritePending | SyncPending | ClosePending | CleanPending
    | OpenFile | StatFile | WriteFile | SyncFile | TruncateFile | SyncAgain | CloseFile
    | RemovePending | RemoveFile

  const BesideSteps: set<Step> := {CreatePending, WritePending, SyncPending, ClosePending}

  function OverwriteSteps(was: Bytes, doc: Bytes): set<Step> {
    {OpenFile, StatFile, WriteFile, SyncFile, CloseFile} +
    if |was| > |doc| then {TruncateFile, SyncAgain} else {}
  }

  /** A crash leaves the file itself a whole document. */
  ghost predicate Readable(f: File, was: Bytes, doc: Bytes) {
    forall left | Leaves(f, left) :: Reads(left, was, doc)
  }

  /** After step `k` the disk had the document and padding over the whole old
      length, and from then on the file itself was always a whole document. */
  ghost predicate OverwrittenAt(history: seq<Disk>, k: nat, was: Bytes, doc: Bytes) {
    && k < |history| && history[k].file == Settled(Padded(doc, |was|))
    && forall j | k <= j < |history| :: Readable(history[j].file, was, doc)
  }

  lemma NewReadable(doc: Bytes, was: Bytes)
    ensures Readable(Settled(doc), was, doc)
  {
  }

  lemma PaddedReadable(doc: Bytes, was: Bytes)
    ensures Readable(Settled(Padded(doc, |was|)), was, doc)
    ensures Readable(Cutting(Padded(doc, |was|), |doc|), was, doc)
    ensures Readable(Settled(doc), was, doc)
  {
  }

  class Directory {
    var file: File
    var pending: File
    /** The disk after every step taken so far. */
    ghost var history: seq<Disk>

    ghost predicate Recorded()
      reads this
    {
      history != [] && history[|history| - 1] == Disk(file, pending)
    }

    constructor (bytes: Bytes)
      ensures file == Settled(bytes) && pending == Absent && history == [Disk(file, pending)]
    {
      file, pending, history := Settled(bytes), Absent, [Disk(Settled(bytes), Absent)];
    }

    method Put(f: File, p: File)
      modifies this
      ensures file == f && pending == p && history == old(history) + [Disk(f, p)]
    {
      file, pending, history := f, p, history + [Disk(f, p)];
    }

    /** The first half of caseKeyFileRewrite: the new document beside the file,
        forced to the disk before anything is overwritten. */
    method WriteBeside(doc: Bytes, fails: set<Step>, ghost was: Bytes) returns (ok: bool)
      requires file == Settled(was) && Recorded() && AlwaysRecoverable(history, was, doc)
      modifies this
      ensures file == Settled(was) && Recorded() && AlwaysRecoverable(history, was, doc)
      ensures ok ==> pending == Settled(doc)
      ensures !ok && old(pending).Absent? && CleanPending !in fails ==> pending == Absent
      ensures !old(pending).Absent? ==> pending == old(pending)
      ensures ok <==> old(pending).Absent? && fails !! BesideSteps
    {
      hide Recoverable;
      if CreatePending in fails || !pending.Absent? {
        return false;
      }
      OldInPlace(Disk(file, Unsettled), was, doc);
      Put(file, Unsettled);
      ok := WritePending !in fails;
      if ok {
        OldInPlace(Disk(file, Written(doc)), was, doc);
        Put(file, Written(doc));
        ok := SyncPending !in fails;
      }
      if ok {
        OldInPlace(Disk(file, Settled(doc)), was, doc);
        Put(file, Settled(doc));
      }
      ok := ok && ClosePending !in fails;
      if !ok && CleanPending !in fails {
        OldInPlace(Disk(file, Absent), was, doc);
        Put(file, Absent);
      }
    }

    /** caseKeyOverwrite. When it answers ok the file is the document and no
        more, and the whole old length had been overwritten on the disk first. */
    method Overwrite(doc: Bytes, fails: set<Step>, ghost was: Bytes) returns (ok: bool)
      requires file == Settled(was) && pending == Settled(doc)
      requires Recorded() && AlwaysRecoverable(history, was, doc)
      modifies this
      ensures pending == Settled(doc) && Recorded() && AlwaysRecoverable(history, was, doc)
      ensures old(history) <= history
      ensures ok ==> file == Settled(doc) && exists k :: OverwrittenAt(history, k, was, doc)
      ensures ok <==> fails !! OverwriteSteps(was, doc)
    {
      hide Recoverable, Padded, Readable;
      if OpenFile in fails {
        return false;
      }
      ok := StatFile !in fails;
      if ok {
        var padded := Padded(doc, |file.bytes|);
        ok := WriteFile !in fails;
        var now := if ok then Written(padded) else Unsettled;
        NewBeside(Disk(now, pending), was, doc);
        Put(now, pending);
        ok := ok && SyncFile !in fails;
        if ok {
          NewBeside(Disk(Settled(padded), pending), was, doc);
          Put(Settled(padded), pending);
          ghost var k := |history| - 1;
          PaddedStarts(doc, |was|);
          if |padded| > |doc| {
            ok := TruncateFile !in fails;
            if ok {
              NewBeside(Disk(Cutting(padded, |doc|), pending), was, doc);
              Put(Cutting(padded, |doc|), pending);
              ok := SyncAgain !in fails;
            }
            if ok {
              NewBeside(Disk(Settled(padded[..|doc|]), pending), was, doc);
              Put(Settled(padded[..|doc|]), pending);
            }
          }
          PaddedReadable(doc, was);
          assert OverwrittenAt(history, k, was, doc);
        }
      }
      ok := ok && CloseFile !in fails;
    }

    /** caseKeyFileRewrite. */
    method Rewrite(doc: Bytes, fails: set<Step>) returns (ok: bool)
      requires file.Settled? && history == [Disk(file, pending)]
      modifies this
      ensures AlwaysRecoverable(history, old(file).bytes, doc) && Recorded()
      ensures ok ==> file == Settled(doc) && pending == Absent
      ensures ok ==> exists k :: OverwrittenAt(history, k, old(file).bytes, doc)
      ensures ok <==> old(pending).Absent? && fails !! BesideSteps + OverwriteSteps(old(file).bytes, doc) + {RemovePending}
      ensures !ok && old(pending).Absent? && fails !! BesideSteps ==> pending == Settled(doc)
      ensures !ok && !old(pending).Absent? ==> file == old(file) && pending == old(pending)
    {
      hide Recoverable, Padded, Readable;
      ghost var was := file.bytes;
      OldInPlace(Disk(file, pending), was, doc);
      ok := WriteBeside(doc, fails, was);
      if !ok {
        return;
      }
      ok := Overwrite(doc, fails, was);
      if !ok {
        return;
      }
      ghost var k :| OverwrittenAt(history, k, was, doc);
      if RemovePending in fails {
        return false;
      }
      NewInPlace(Disk(file, Absent), was, doc);
      NewReadable(doc, was);
      Put(file, Absent);
      assert OverwrittenAt(history, k, was, doc);
    }

    /** caseKeyFileDestroy: the file is removed only after zeros of its whole
        length are on the disk. */
    method Destroy(fails: set<Step>) returns (ok: bool)
      requires file.Settled? && Recorded()
      modifies this
      ensures ok <==> fails !! {OpenFile, StatFile, WriteFile, SyncFile, CloseFile, RemoveFile}
      ensures ok ==> file == Absent && |history| >= 2
      ensures file == Absent ==> |history| >= 2 && history[|history| - 2].file == Settled(Zeros(|old(file).bytes|))
      ensures pending == old(pending)
    {
      if OpenFile in fails {
        return false;
      }
      var n := |file.bytes|;
      ok := StatFile !in fails;
      if ok {
        ok := WriteFile !in fails;
        Put(if ok then Written(Zeros(n)) else Unsettled, pending);
        ok := ok && SyncFile !in fails;
        if ok {
          Put(Settled(Zeros(n)), pending);
        }
      }
      if !ok || CloseFile in fails || RemoveFile in fails {
        return false;
      }
      Put(Absent, pending);
    }
  }

  function Zeros(n: nat): (s: Bytes)
    ensures |s| == n && forall i | 0 <= i < n :: s[i] == 0
  {
    if n == 0 then [] else Zeros(n - 1) + [0]
  }

  lemma PaddedStarts(doc: Bytes, n: nat)
    ensures |Padded(doc, n)| == (if n > |doc| then n else |doc|) && Padded(doc, n)[..|doc|] == doc
    ensures |Padded(doc, n)| == |doc| ==> Padded(doc, n) == doc
  {
  }
}
