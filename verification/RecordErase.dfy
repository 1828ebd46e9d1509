// record_erase as a protocol between a record file and the ledger: measured,
// refused or written over, read back, and only then committed.
module RecordErase {
  import opened Common
  import opened Digest
  import opened CaseLedger
  import E = CaseErasure

  // ---------------------------------------------------------------------
  // The file, as text of bytes
  // ---------------------------------------------------------------------

  const MAGIC := "MUTMREC" + [1 as char]
  const PREFIX_SIZE: nat := 12
  const MAX_HEADER: nat := 0x80_0000

  function Byte(n: nat): char {
    (n % 256) as char
  }

  /** RecordFilePrefix: the magic and the header's length in four bytes. */
  function Prefix(n: nat): (p: string)
    ensures |p| == PREFIX_SIZE
  {
    MAGIC + [Byte(n / 0x100_0000), Byte(n / 0x1_0000), Byte(n / 0x100), Byte(n)]
  }

  function Number(b: string): nat
    requires |b| == 4
  {
    b[0] as nat * 0x100_0000 + b[1] as nat * 0x1_0000 + b[2] as nat * 0x100 + b[3] as nat
  }

  /** A record's header, found by the length its prefix declares. */
  function HeaderOf(file: string): Option<string> {
    if |file| < PREFIX_SIZE || file[..|MAGIC|] != MAGIC then None
    else
      var n := Number(file[|MAGIC|..PREFIX_SIZE]);
      if n == 0 || n > MAX_HEADER || |file| < PREFIX_SIZE + n then None
      else Some(file[PREFIX_SIZE..PREFIX_SIZE + n])
  }

  lemma NumberOfPrefix(n: nat)
    requires n < 0x1_0000_0000
    ensures Number(Prefix(n)[8..12]) == n
  {
    var b := Prefix(n)[8..12];
    assert b == [Byte(n / 0x100_0000), Byte(n / 0x1_0000), Byte(n / 0x100), Byte(n)];
    var x, y, z := n / 0x100, n / 0x1_0000, n / 0x100_0000;
    assert x / 0x100 == y && y / 0x100 == z;
    assert n == x * 256 + n % 256 && x == y * 256 + x % 256 && y == z * 256 + y % 256;
  }

  predicate IsBytes(file: string) {
    forall i | 0 <= i < |file| :: file[i] < 256 as char
  }

  /** The header of a file is what follows its prefix, and the prefix says how long it is: at least a byte, and at most
      eight mebibytes of them. */
  lemma HeaderIff(file: string, header: string)
    requires IsBytes(file)
    ensures HeaderOf(file) == Some(header) <==>
            0 < |header| <= 8_388_608 && Prefix(|header|) + header <= file
  {
    hide Byte, Number;
    if HeaderOf(file) == Some(header) {
      HeaderStarts(file);
    }
    if 0 < |header| <= 8_388_608 && Prefix(|header|) + header <= file {
      NumberOfPrefix(|header|);
      assert file[..12] == Prefix(|header|) && file[8..12] == Prefix(|header|)[8..12];
      assert Prefix(|header|)[..8] == MAGIC == file[..8];
      assert file[12..12 + |header|] == header;
    }
  }

  /** What record_seal wrote under the open key, and what it is with its key erased. */
  datatype Sealed = Sealed(recordUid: string, erased: string)

  /** The headers the open key unwraps, in the form record_seal writes them. */
  type Headers = map<string, Sealed>

  /** prefix, header and whatever comes after them. */
  function Whole(header: string, rest: string): string {
    Prefix(|header|) + header + rest
  }

  predicate StartsWith(file: string, header: string) {
    Prefix(|header|) + header <= file
  }

  function RestOf(file: string, header: string): string
    requires StartsWith(file, header)
  {
    file[PREFIX_SIZE + |header|..]
  }

  lemma WholeSplits(file: string, header: string)
    requires StartsWith(file, header)
    ensures file == Whole(header, RestOf(file, header))
  {
  }

  /** Writing a header of the same length over the one in the file. */
  function WriteAt(file: string, header: string, text: string): string
    requires StartsWith(file, header) && |text| == |header|
  {
    file[..PREFIX_SIZE] + text + file[PREFIX_SIZE + |text|..]
  }

  lemma WriteAtErases(file: string, header: string, text: string)
    requires StartsWith(file, header) && |text| == |header|
    ensures WriteAt(file, header, text) == Whole(text, RestOf(file, header))
  {
  }

  datatype Digests = Digests(fileBefore: Hex, fileAfter: Hex, headerBefore: Hex, headerAfter: Hex)

  function Measured(h: Hash, header: string, erased: string, rest: string): Digests {
    Digests(Sum(h, Whole(header, rest)), Sum(h, Whole(erased, rest)), Sum(h, header), Sum(h, erased))
  }

  lemma MeasuredIs(h: Hash, header: string, erased: string, rest: string)
    ensures var d := Measured(h, header, erased, rest);
            && d.fileBefore == Sum(h, Whole(header, rest)) && d.fileAfter == Sum(h, Whole(erased, rest))
            && d.headerBefore == Sum(h, header) && d.headerAfter == Sum(h, erased)
  {
  }

  datatype Step = OpenForWriting | ReadRest | BeginWrite | AppendEvent | WriteHeader | SyncFile | CloseFile | Commit

  /** What some other program may have made of the file between two of our steps. */
  datatype Meanwhile = Meanwhile(beforeMeasure: Option<string>, beforeWrite: Option<string>, beforeReadBack: Option<string>,
                                 beforeCommit: Option<string>)

  const NOTHING := Meanwhile(None, None, None, None)

  datatype Answer = Declined | Previewed | Broke | Erased(event: E.Event, digests: Digests)

  /** The step of the ledger that records the event. */
  predicate Commits(before: State, after: State, who: Actor, event: E.Event, uid: string) {
    && event == E.Event(uid, before.caseUid, event.erased)
    && RecordErasure(before, who, event.erased, uid) == Ok(after)
    && after == before.(erasures := before.erasures + [event])
  }

  lemma Appended(s: State, who: Actor, erased: E.Erased, uid: string)
    requires RecordErasure(s, who, erased, uid).Ok?
    ensures Commits(s, RecordErasure(s, who, erased, uid).value, who, E.Event(uid, s.caseUid, erased), uid)
  {
  }

  /** A record this key sealed, with an erased header of the same length. */
  predicate Erasable(file: string, headers: Headers) {
    && IsBytes(file) && HeaderOf(file).Some? && HeaderOf(file).value in headers
    && |headers[HeaderOf(file).value].erased| == |HeaderOf(file).value|
  }

  predicate Accepts(s: State, who: Actor, headers: Headers, file: string, uid: string)
    requires Erasable(file, headers)
  {
    RecordErasure(s, who, E.RecordKey(headers[HeaderOf(file).value].recordUid), uid).Ok?
  }

  /** The four bytes of a length are the bytes it was written in. */
  lemma NumberBytes(b: string)
    requires |b| == 4 && forall i | 0 <= i < 4 :: b[i] < 256 as char
    ensures b == [Byte(Number(b) / 0x100_0000), Byte(Number(b) / 0x1_0000), Byte(Number(b) / 0x100), Byte(Number(b))]
  {
    var w, x, y, z := b[0] as nat, b[1] as nat, b[2] as nat, b[3] as nat;
    var n := Number(b);
    assert n / 0x100 == w * 0x1_0000 + x * 0x100 + y;
    assert n / 0x1_0000 == w * 0x100 + x;
    assert n / 0x100_0000 == w;
    assert n % 256 == z && (n / 0x100) % 256 == y && (n / 0x1_0000) % 256 == x && w % 256 == w;
  }

  lemma HeaderStarts(file: string)
    requires IsBytes(file) && HeaderOf(file).Some?
    ensures StartsWith(file, HeaderOf(file).value)
  {
    hide Number, Byte;
    var length := file[|MAGIC|..PREFIX_SIZE];
    NumberBytes(length);
    assert file[..PREFIX_SIZE] == file[..|MAGIC|] + length == Prefix(Number(length));
    assert file[..PREFIX_SIZE] + HeaderOf(file).value <= file;
  }

  /** The header written over another of its length is the one read back. */
  lemma WriteAtReads(file: string, header: string, text: string)
    requires StartsWith(file, header) && |text| == |header|
    ensures HeaderOf(file) == Some(header) ==> HeaderOf(WriteAt(file, header, text)) == Some(text)
  {
  }

  class Eraser {
    const hash: Hash
    var ledger: State
    /** Beside each erasure of this record file the ledger recorded, what it says was measured. */
    var recorded: seq<Digests>
    var file: string

    constructor (hash: Hash, ledger: State, file: string)
      ensures this.hash == hash && this.ledger == ledger && this.file == file && recorded == []
    {
      this.hash, this.ledger, this.file, recorded := hash, ledger, file, [];
    }

    method Meddle(with: Option<string>)
      modifies `file
      ensures file == if with.Some? then with.value else old(file)
    {
      if with.Some? {
        file := with.value;
      }
    }

    /** recordEraseUnchanged: the prefix, the header and the length, and not the rest. */
    predicate Unchanged(header: string, size: nat)
      reads this
    {
      StartsWith(file, header) && |file| == size
    }

    /** record_erase. `known` is the digests the ledger has the record under, if
        any; `torn` is what a write that failed left of the file. `header` is
        the header it read, `rest` what followed it when it was measured, and
        `readBack` the file as it was read back after the write. */
    method Erase(who: Actor, headers: Headers, open: bool, known: Option<(string, string)>, preview: bool, uid: string,
                 fails: set<Step>, torn: string, meanwhile: Meanwhile)
      returns (answer: Answer, ghost header: string, ghost rest: string, ghost readBack: string)
      modifies this
      // Nothing is recorded but by the commit, which records one event the ledger takes.
      ensures !answer.Erased? ==> ledger == old(ledger) && recorded == old(recorded)
      ensures answer.Erased? ==> header in headers && answer.event.erased == E.RecordKey(headers[header].recordUid)
      ensures answer.Erased? ==> Commits(old(ledger), ledger, who, answer.event, uid)
      ensures answer.Erased? ==> recorded == old(recorded) + [answer.digests]
      ensures answer.Previewed? ==> preview
      ensures answer.Erased? ==> !open && !preview
      ensures answer.Erased? && known.Some? ==> known.value == (answer.digests.fileBefore, answer.digests.headerBefore)
      // Then the header read back was the erased one, whoever else wrote to the file; and at the commit it is exactly if
      // nobody put back another in between,
      ensures answer.Erased? ==> HeaderOf(readBack) == Some(headers[header].erased)
      ensures answer.Erased? ==> file == if meanwhile.beforeCommit.Some? then meanwhile.beforeCommit.value else readBack
      ensures answer.Erased? ==> (HeaderOf(file) == Some(headers[header].erased) <==>
                                    meanwhile.beforeCommit.None?
                                    || HeaderOf(meanwhile.beforeCommit.value) == Some(headers[header].erased))
      ensures answer.Erased? ==> answer.digests == Measured(hash, header, headers[header].erased, rest)
      // and if nobody did, the file is what it was with that header over the old one, as measured.
      ensures answer.Erased? && meanwhile == NOTHING ==>
                old(file) == Whole(header, rest) && file == Whole(headers[header].erased, rest)
      ensures answer.Erased? && meanwhile == NOTHING ==>
                && HeaderOf(old(file)) == Some(header)
                && answer.digests.fileBefore == Sum(hash, old(file)) && answer.digests.fileAfter == Sum(hash, file)
                && answer.digests.headerBefore == Sum(hash, header)
                && answer.digests.headerAfter == Sum(hash, headers[header].erased)
      // Before the write, nothing is written.
      ensures (answer.Declined? || answer.Previewed?) && meanwhile == NOTHING ==> file == old(file)
      // Left alone, it erases what it should.
      ensures meanwhile == NOTHING && fails == {} && !open && !preview && known.None? && Erasable(old(file), headers) ==>
                (answer.Erased? <==> Accepts(old(ledger), who, headers, old(file), uid))
    {
      hide RecordErasure, HeaderOf, Commits, Whole, StartsWith, RestOf, WriteAt, Measured, Sum, IsBytes, Prefix;
      header, rest, readBack := "", "", "";
      var loaded := HeaderOf(file);
      if loaded.None? || loaded.value !in headers || open {
        return Declined, header, rest, readBack;
      }
      var found := loaded.value;
      header := found;
      var sealed, size := headers[found], |file|;
      if |sealed.erased| != |found| {
        return Declined, header, rest, readBack;
      }
      if Erasable(file, headers) {
        HeaderStarts(file);
      }
      Meddle(meanwhile.beforeMeasure);
      if OpenForWriting in fails || !Unchanged(found, size) || ReadRest in fails {
        return Declined, header, rest, readBack;
      }
      var digests := Measured(hash, found, sealed.erased, RestOf(file, found));
      rest := RestOf(file, found);
      MeasuredIs(hash, found, sealed.erased, rest);
      WholeSplits(file, found);
      var next := RecordErasure(ledger, who, E.RecordKey(sealed.recordUid), uid);
      if next.Refused? || (known.Some? && known.value != (digests.fileBefore, digests.headerBefore)) {
        return Declined, header, rest, readBack;
      }
      Meddle(meanwhile.beforeWrite);
      if !Unchanged(found, size) {
        return Declined, header, rest, readBack;
      }
      if preview {
        return Previewed, header, rest, readBack;
      }
      if BeginWrite in fails || AppendEvent in fails {
        return Declined, header, rest, readBack;
      }
      WriteAtErases(file, found, sealed.erased);
      WriteAtReads(file, found, sealed.erased);
      file := if WriteHeader in fails then torn else WriteAt(file, found, sealed.erased);
      if WriteHeader in fails || SyncFile in fails || CloseFile in fails {
        return Broke, header, rest, readBack;
      }
      Meddle(meanwhile.beforeReadBack);
      readBack := file;
      if HeaderOf(file) != Some(sealed.erased) {
        return Broke, header, rest, readBack;
      }
      Meddle(meanwhile.beforeCommit);
      if Commit in fails {
        return Broke, header, rest, readBack;
      }
      var event := E.Event(uid, ledger.caseUid, E.RecordKey(sealed.recordUid));
      Appended(ledger, who, E.RecordKey(sealed.recordUid), uid);
      ledger, recorded := next.value, recorded + [digests];
      return Erased(event, digests), header, rest, readBack;
    }
  }
}
