// case_key_erase as a protocol: the key file destroyed, or rewritten without
// one generation and read back, the key in the session zeroed, and only then
// the commit.
module KeyErase {
  import opened Common
  import opened CaseLedger
  import K = KeyFile
  import E = CaseErasure

  /** Which generations go: all of them with the file, or one, and the document left without it. */
  datatype Job = EveryGeneration | OneGeneration(number: nat, document: K.Bytes)

  function Event(job: Job, generations: seq<nat>, uid: string, caseUid: string): E.Event {
    match job
    case EveryGeneration => E.Event(uid, caseUid, E.CaseKey(E.EveryGeneration, E.GenerationsText(generations)))
    case OneGeneration(n, _) => E.Event(uid, caseUid, E.CaseKey(E.OneGeneration, E.GenerationsText([n])))
  }

  class Session {
    var ledger: State
    /** The generation of the key held in memory. */
    var key: Option<nat>
    var keyErased: bool

    constructor (ledger: State, key: Option<nat>)
      ensures this.ledger == ledger && this.key == key && !keyErased
    {
      this.ledger, this.key, keyErased := ledger, key, false;
    }

    /** eraseKeyLocked. */
    method ZeroKey(job: Job)
      modifies `key, `keyErased
      ensures keyErased == (old(keyErased) || job.EveryGeneration?)
      ensures key == if job.EveryGeneration? || old(key) == Some(job.number) then None else old(key)
    {
      if job.EveryGeneration? {
        keyErased := true;
      }
      if key.Some? && (job.EveryGeneration? || key.value == job.number) {
        key := None;
      }
    }

    /** case_key_erase, from the ledger's leave to the commit. `generations` are
        the file's; `readsBack` is whether what was rewritten reads back as that. */
    method Erase(dir: K.Directory, who: Actor, job: Job, generations: seq<nat>, open: bool, uid: string,
                 fails: set<K.Step>, readsBack: bool, commits: bool) returns (ok: bool)
      requires dir.file.Settled? && dir.history == [K.Disk(dir.file, dir.pending)]
      modifies this, dir
      ensures !ok ==> ledger == old(ledger)
      ensures ok ==> ledger == old(ledger).(erasures := old(ledger).erasures
                                              + [Event(job, generations, uid, old(ledger).caseUid)])
                     && RecordErasure(old(ledger), who, Event(job, generations, uid, old(ledger).caseUid).erased, uid)
                        == Ok(ledger)
      ensures ok && job.EveryGeneration? ==>
                ledger.erasures[|ledger.erasures| - 1].erased == E.CaseKey(E.EveryGeneration, E.GenerationsText(generations))
      ensures ok && job.OneGeneration? ==>
                ledger.erasures[|ledger.erasures| - 1].erased == E.CaseKey(E.OneGeneration, E.GenerationsText([job.number]))
      // An erasure on record is an erasure on the disk, done as it has to be done, and in memory.
      ensures ok && job.EveryGeneration? ==> dir.file == K.Absent && key == None && keyErased
      ensures ok && job.EveryGeneration? ==>
                exists k :: 0 <= k < |dir.history| && dir.history[k].file == K.Settled(K.Zeros(|old(dir.file).bytes|))
      ensures ok && job.OneGeneration? ==> dir.file == K.Settled(job.document) && dir.pending == K.Absent
                                           && key != Some(job.number) && (key == old(key) || old(key) == Some(job.number))
      ensures ok && job.OneGeneration? ==> exists k :: K.OverwrittenAt(dir.history, k, old(dir.file).bytes, job.document)
      // However far it got, one generation's erasure left a key file to open.
      ensures job.OneGeneration? ==> K.AlwaysRecoverable(dir.history, old(dir.file).bytes, job.document)
      // The key in memory goes only with the key on the disk: short of the commit, it is kept.
      ensures !ok && commits ==> key == old(key) && keyErased == old(keyErased)
      // What the ledger refuses touches nothing.
      ensures RecordErasure(old(ledger), who, Event(job, generations, uid, old(ledger).caseUid).erased, uid).Refused? ==>
                !ok && dir.file == old(dir.file) && key == old(key)
    {
      hide RecordErasure, K.Recoverable;
      ghost var was := dir.file.bytes;
      K.OldInPlace(K.Disk(dir.file, dir.pending), was, if job.OneGeneration? then job.document else []);
      var event := Event(job, generations, uid, ledger.caseUid);
      var next := RecordErasure(ledger, who, event.erased, uid);
      if next.Refused? || open {
        return false;
      }
      if job.EveryGeneration? {
        ok := dir.Destroy(fails);
      } else {
        ok := dir.Rewrite(job.document, fails);
        ok := ok && readsBack;
      }
      if !ok {
        return;
      }
      ZeroKey(job);
      if !commits {
        return false;
      }
      Appended(ledger, who, event.erased, uid);
      ledger := next.value;
    }
  }

  lemma Appended(s: State, who: Actor, erased: E.Erased, uid: string)
    requires RecordErasure(s, who, erased, uid).Ok?
    ensures RecordErasure(s, who, erased, uid).value == s.(erasures := s.erasures + [E.Event(uid, s.caseUid, erased)])
  {
  }
}
