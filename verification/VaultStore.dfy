/** Saving a vault through a temporary file, a backup and a rename, and loading it again, when the process may stop
    anywhere (src/security/vault.cpp). */
module VaultStore {
  import opened Core
  import opened Vaults
  import Aead

  /** The vault file, `.tmp` and `.bak`; None is a file that does not exist. */
  datatype Disk = Disk(primary: Option<Bytes>, temp: Option<Bytes>, backup: Option<Bytes>)

  /** Where the process dies, if it does. */
  datatype Crash = Never | WritingTemp | TempWritten | WritingBackup | BackupWritten | Renamed

  /** What the file system does during one save. Files being written when it stops, or when an error is reported, are
      left with arbitrary contents. A rename is atomic. */
  datatype Environment = Environment(crash: Crash, wroteTemp: bool, tornTemp: Option<Bytes>, sawPrimary: bool, copied: bool,
                                     tornBackup: Option<Bytes>, renamed: bool, removedTemp: bool)

  datatype Outcome = Saved | Failed | Crashed

  /** The backup step runs: the primary exists, and the existence check says so rather than failing. */
  predicate BacksUp(d: Disk, e: Environment) {
    d.primary.Some? && e.sawPrimary
  }

  /** `save_vault_atomic` from the encoded vault on. */
  function SaveRun(d: Disk, bytes: Bytes, e: Environment): (Outcome, Disk) {
    if e.crash.WritingTemp? then (Crashed, d.(temp := e.tornTemp))
    else if !e.wroteTemp then (Failed, d.(temp := e.tornTemp))
    else
      var written := d.(temp := Some(bytes));
      if e.crash.TempWritten? then (Crashed, written)
      else if BacksUp(d, e) && e.crash.WritingBackup? then (Crashed, written.(backup := e.tornBackup))
      else if BacksUp(d, e) && !e.copied then (Failed, written.(backup := e.tornBackup))
      else
        var copied := if BacksUp(d, e) then written.(backup := d.primary) else written;
        if e.crash.BackupWritten? then (Crashed, copied)
        else if !e.renamed then (Failed, if e.removedTemp then copied.(temp := None) else copied)
        else (if e.crash.Renamed? then Crashed else Saved, Disk(Some(bytes), None, copied.backup))
  }

  datatype Source = Primary | Backup

  datatype Loaded<+T> = Loaded(from: Source, vault: T)

  /** A file that is missing or empty is not tried. */
  function Try<T>(open: Bytes -> Result<T>, file: Option<Bytes>): Option<T> {
    if file.None? || file.value == [] then None else
    match open(file.value)
    case Ok(v) => Some(v)
    case Err(_) => None
  }

  /** `load_vault`. */
  function Load<T>(open: Bytes -> Result<T>, d: Disk): Result<Loaded<T>> {
    match Try(open, d.primary)
    case Some(v) => Ok(Loaded(Primary, v))
    case None =>
      match Try(open, d.backup)
      case Some(v) => Ok(Loaded(Backup, v))
      case None => Err(InvalidFormat)
  }

  // ---- One save ----

  /** If the primary opens before a save, then whatever happens during it a load finds exactly the old vault or exactly
      the new one: the new one once the rename is done and the new file opens, the old one otherwise, provided the
      existence check did not fail before a file was renamed that does not open. */
  lemma SaveIsAtomic<T>(open: Bytes -> Result<T>, d: Disk, bytes: Bytes, e: Environment)
    requires Try(open, d.primary).Some?
    ensures var (o, after) := SaveRun(d, bytes, e);
            && (after.primary == d.primary ==> Load(open, after) == Load(open, d))
            && (after.primary != d.primary ==> after.primary == Some(bytes))
            && (after.primary == Some(bytes) && Try(open, after.primary).Some? ==>
                  Load(open, after) == Ok(Loaded(Primary, Try(open, Some(bytes)).value)))
            && (after.primary != d.primary && Try(open, after.primary).None? && BacksUp(d, e) ==>
                  Load(open, after) == Ok(Loaded(Backup, Try(open, d.primary).value)))
            && (o == Saved ==> after.primary == Some(bytes))
            && (o == Failed ==> after.primary == d.primary)
  {}

  /** After a completed save that saw the old file, the backup is the old file, and losing or damaging the new one
      leaves the old vault. */
  lemma BackupIsPrevious<T>(open: Bytes -> Result<T>, d: Disk, bytes: Bytes, e: Environment, damaged: Option<Bytes>)
    requires Try(open, d.primary).Some? && SaveRun(d, bytes, e).0 == Saved && BacksUp(d, e)
    requires Try(open, damaged).None?
    ensures var after := SaveRun(d, bytes, e).1;
            && after.backup == d.primary
            && Load(open, after.(primary := damaged)) == Ok(Loaded(Backup, Try(open, d.primary).value))
  {}

  /** The worst case: the primary is there but does not open, and the process dies after it was copied over the backup. */
  const DIES_AFTER_BACKUP: Environment := Environment(BackupWritten, true, None, true, true, None, false, false)

  /** A loadable vault survives every save of a file that opens exactly when its primary opens or does not exist. A
      damaged primary is copied over the good backup first. */
  lemma SurvivesExactly<T(!new)>(open: Bytes -> Result<T>, d: Disk, bytes: Bytes)
    requires Load(open, d).Ok? && Try(open, Some(bytes)).Some?
    ensures (forall e :: Load(open, SaveRun(d, bytes, e).1).Ok?) <==> Try(open, d.primary).Some? || d.primary.None?
  {
    if Try(open, d.primary).Some? || d.primary.None? {
      forall e
        ensures Load(open, SaveRun(d, bytes, e).1).Ok?
      {}
    } else {
      assert Load(open, SaveRun(d, bytes, DIES_AFTER_BACKUP).1).Err?;
    }
  }

  // ---- Any number of saves ----

  datatype Attempt = Attempt(bytes: Bytes, environment: Environment)

  function RunSaves(d: Disk, attempts: seq<Attempt>): Disk {
    if attempts == [] then d else
    var n := |attempts| - 1;
    SaveRun(RunSaves(d, attempts[..n]), attempts[n].bytes, attempts[n].environment).1
  }

  /** What attempt `i` reported. */
  function Report(d: Disk, attempts: seq<Attempt>, i: nat): Outcome
    requires i < |attempts|
  {
    SaveRun(RunSaves(d, attempts[..i]), attempts[i].bytes, attempts[i].environment).0
  }

  /** The first file, then the file of each attempt. */
  function Version(d: Disk, attempts: seq<Attempt>, k: nat): Option<Bytes>
    requires k <= |attempts|
  {
    if k == 0 then d.primary else Some(attempts[k - 1].bytes)
  }

  /** Loading finds version `k`, and no attempt after it reported success. */
  ghost predicate Holds<T(!new)>(open: Bytes -> Result<T>, d: Disk, attempts: seq<Attempt>, k: nat) {
    && k <= |attempts|
    && RunSaves(d, attempts).primary == Version(d, attempts, k)
    && Try(open, Version(d, attempts, k)).Some?
    && Load(open, RunSaves(d, attempts)) == Ok(Loaded(Primary, Try(open, Version(d, attempts, k)).value))
    && forall i | k <= i < |attempts| :: Report(d, attempts, i) != Saved
  }

  /** Over any sequence of saves, each of which may succeed, fail or die anywhere: loading finds one whole version, and
      never one older than the last save that reported success. */
  lemma {:induction false} NoSaveIsLost<T(!new)>(open: Bytes -> Result<T>, d: Disk, attempts: seq<Attempt>) returns (k: nat)
    requires Try(open, d.primary).Some?
    requires forall a | a in attempts :: Try(open, Some(a.bytes)).Some?
    ensures Holds(open, d, attempts, k)
  {
    if attempts == [] {
      k := 0;
    } else {
      var n := |attempts| - 1;
      var earlier, last := attempts[..n], attempts[n];
      k := NoSaveIsLost(open, d, earlier);
      hide SaveRun, Load;
      SaveIsAtomic(open, RunSaves(d, earlier), last.bytes, last.environment);
      assert last in attempts;
      forall i | k <= i < n
        ensures Report(d, attempts, i) != Saved
      {
        assert attempts[..i] == earlier[..i] && Report(d, earlier, i) == Report(d, attempts, i);
      }
      if RunSaves(d, attempts).primary == Some(last.bytes) {
        k := n + 1;
      } else {
        assert Version(d, attempts, k) == Version(d, earlier, k);
        LoadPrimary(open, RunSaves(d, attempts));
      }
    }
  }

  lemma LoadPrimary<T>(open: Bytes -> Result<T>, d: Disk)
    requires Try(open, d.primary).Some?
    ensures Load(open, d) == Ok(Loaded(Primary, Try(open, d.primary).value))
  {}

  // ---- With the vault's own format ----

  function Opener(aead: Aead.Provider, passphrase: Bytes, now: u64): Bytes -> Result<Vault> {
    (b: Bytes) => DecodeVault(aead, b, passphrase, now)
  }

  /** A vault whose save reported success is the vault a load returns. */
  lemma SavedVaultLoads(aead: Aead.Provider, v: Vault, passphrase: Bytes, draw: Draw, d: Disk, e: Environment, now: u64)
    requires aead.Sound() && EncodeVault(aead, v, passphrase, draw).Ok? && WritableVault(v)
    requires v.metadata.parallelism != 0 && v.metadata.generation != 0xffff_ffff_ffff_ffff
    requires SaveRun(d, EncodeVault(aead, v, passphrase, draw).value, e).0 == Saved
    ensures Load(Opener(aead, passphrase, now), SaveRun(d, EncodeVault(aead, v, passphrase, draw).value, e).1) ==
            Ok(Loaded(Primary, Reopened(v, draw, now)))
  {
    hide EncodeVault, DecodeVault, WritableVault, Reopened;
    DecodeOfEncodeVault(aead, v, passphrase, draw, now);
    EmptyDoesNotOpen(aead, passphrase, now);
  }

  lemma EmptyDoesNotOpen(aead: Aead.Provider, passphrase: Bytes, now: u64)
    ensures DecodeVault(aead, [], passphrase, now).Err?
  {
    hide Unlock;
  }

  // ---- The object ----

  class VaultDirectory {
    var primary: Option<Bytes>
    var temp: Option<Bytes>
    var backup: Option<Bytes>

    function Contents(): Disk
      reads this
    {
      Disk(primary, temp, backup)
    }

    method Save(bytes: Bytes, e: Environment) returns (o: Outcome)
      modifies this
      ensures (o, Contents()) == SaveRun(old(Contents()), bytes, e)
    {
      if e.crash.WritingTemp? || !e.wroteTemp {
        temp := e.tornTemp;
        return if e.crash.WritingTemp? then Crashed else Failed;
      }
      temp := Some(bytes);
      if e.crash.TempWritten? {
        return Crashed;
      }
      if primary.Some? && e.sawPrimary {
        if e.crash.WritingBackup? || !e.copied {
          backup := e.tornBackup;
          return if e.crash.WritingBackup? then Crashed else Failed;
        }
        backup := primary;
      }
      if e.crash.BackupWritten? {
        return Crashed;
      }
      if !e.renamed {
        if e.removedTemp {
          temp := None;
        }
        return Failed;
      }
      primary, temp := temp, None;
      o := if e.crash.Renamed? then Crashed else Saved;
    }

    method LoadAny<T>(open: Bytes -> Result<T>) returns (r: Result<Loaded<T>>)
      ensures r == Load(open, Contents())
    {
      if primary.Some? && primary.value != [] {
        var attempt := open(primary.value);
        if attempt.Ok? {
          return Ok(Loaded(Primary, attempt.value));
        }
      }
      if backup.Some? && backup.value != [] {
        var attempt := open(backup.value);
        if attempt.Ok? {
          return Ok(Loaded(Backup, attempt.value));
        }
      }
      r := Err(InvalidFormat);
    }
  }
}
