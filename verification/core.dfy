/** `process_entry`: the life cycle of one backup entry. The backup is created,
    encrypted, given a checksum sidecar and its permissions when the entry is due
    today; then the local backups are listed and rotated; then, when the entry has a
    remote module, the remote backups are listed, the local backups that fit the
    remote schedule are uploaded, and the remote backups are rotated. Every phase runs
    under its own rescue: a phase that raises adds one to the entry's error count and
    the next phase still runs, with whatever the failed phase left behind.

    The local backup directory is a `LocalDir` and the bucket a `Bucket`. What the
    producing backup module and the encryptor do, the digest of the backup file, the
    clock and whether `chown` is permitted are answers of an `Oracle`. */
module Core {

  import opened Wrappers
  import opened Text
  import opened Dates
  import opened Scheduling
  import opened Checksums
  import opened Bakfiles
  import opened Rotation
  import opened BackupGeneric
  import opened RemoteS3

  /** The settings of one entry that `process_entry` reads, after validation (where
      `backup_schedule` is mandatory and `enabled` defaults to true). The three `has`
      flags say whether the entry names a backup, an encryption and a remote module. */
  datatype EntryConfig = EntryConfig(
    enabled: bool,
    hasBackup: bool, hasEncrypt: bool, hasRemote: bool,
    backupSchedule: Schedule, remoteSchedule: Option<Schedule>,
    bkpdir: Option<string>, basename: Option<string>,
    owner: Option<string>, group: Option<string>, mode: Option<int>)

  /** The answers of the collaborators outside the model. `produced`: the producing
      module raised, returned `nil`, or wrote this file into the backup directory and
      returned its name. `encrypted`: the encryptor raised, or wrote this file and
      deleted the unencrypted one. `digest`: the SHA-256 of the backup file. `now` and
      `newAttrs`: the time stamp and attributes a newly created sidecar gets.
      `refused`: the changes of ownership or mode the system refuses. */
  datatype Oracle = Oracle(
    produced: Result<Option<DirEntry>>,
    encrypted: Result<DirEntry>,
    digest: string, now: int, newAttrs: Attrs, refused: Refusals)

  // ---------------------------------------------------------------------------
  // 1. Creating today's backup

  /** The backup directory after the creation phase, the backup file and sidecar
      names it ends with, and the number of its steps that raised. */
  datatype Created = Created(entries: seq<DirEntry>, bkpfile: Option<string>, sumfile: Option<string>, errors: nat)

  /** The entry has a backup module and today fits its backup schedule. */
  predicate Due(cfg: EntryConfig, today: Date, anchors: Anchors)
    requires ValidDate(today)
  {
    cfg.hasBackup && DetermineBackupSchedule(today, today, cfg.backupSchedule, anchors).Some?
  }

  /** Step 1.1: the producing module's `backup`. */
  function Produce(o: Oracle, es: seq<DirEntry>): Created
  {
    match o.produced
    case Err(_) => Created(es, None, None, 1)
    case Ok(None) => Created(es, None, None, 0)
    case Ok(Some(f)) => Created(Put(es, f), Some(f.name), None, 0)
  }

  /** Step 1.2: encryption, when there is an encryptor, a directory and a backup file.
      A failed encryption loses the backup file name. */
  function Encrypt(cfg: EntryConfig, o: Oracle, c: Created): Created
  {
    if !(cfg.hasEncrypt && cfg.bkpdir.Some? && c.bkpfile.Some?) then c
    else
      match o.encrypted
      case Err(_) => c.(bkpfile := None, errors := c.errors + 1)
      case Ok(f) => c.(entries := Put(Without(c.entries, c.bkpfile.value), f), bkpfile := Some(f.name))
  }

  /** Step 1.3: the checksum sidecar, when there is a directory and a backup file. */
  function Checksum(cfg: EntryConfig, o: Oracle, c: Created): Created
  {
    if !(cfg.bkpdir.Some? && c.bkpfile.Some?) then c.(sumfile := None)
    else
      var m := MkCsumEffect(c.entries, cfg.bkpdir, c.bkpfile.value, o.digest, o.now, o.newAttrs);
      if m.1.Ok? then c.(entries := m.0, sumfile := Some(m.1.value))
      else c.(entries := m.0, sumfile := None, errors := c.errors + 1)
  }

  /** Step 1.4: ownership and mode, when there is a backup file or a sidecar. */
  function SetPermissions(cfg: EntryConfig, o: Oracle, c: Created): Created
  {
    if c.bkpfile.None? && c.sumfile.None? then c
    else
      var p := ApplyChanges(c.entries, cfg.bkpdir, PermPlan(c.bkpfile, c.sumfile, cfg.owner, cfg.group, cfg.mode), o.refused);
      c.(entries := p.0, errors := c.errors + (if p.1 then 0 else 1))
  }

  /** Phase 1: nothing happens unless the entry is due; otherwise steps 1.1 to 1.4 in
      order, each seeing what the previous one left. */
  function CreatePhase(cfg: EntryConfig, o: Oracle, today: Date, anchors: Anchors, es: seq<DirEntry>): Created
    requires ValidDate(today)
  {
    if !Due(cfg, today, anchors) then Created(es, None, None, 0)
    else SetPermissions(cfg, o, Checksum(cfg, o, Encrypt(cfg, o, Produce(o, es))))
  }

  // ---------------------------------------------------------------------------
  // 2. Listing and rotating the local backups

  /** Phase 2.1: the local catalog; without a backup module, calling `list` on `nil`
      raises. */
  function ListPhase(cfg: EntryConfig, es: seq<DirEntry>): (Option<seq<Bakfile>>, nat)
  {
    if !cfg.hasBackup then (None, 1)
    else
      match LocalCatalog(es, cfg.bkpdir, cfg.basename)
      case Err(_) => (None, 1)
      case Ok(l) => (Some(l), 0)
  }

  /** A record has expired under a schedule when its date fits none of its tiers.
      Records without a valid date are never produced by the listers (see
      `LocalRecordsAreComplete` and `RemoteRecordsAreComplete`); they count as kept. */
  function ExpiredUnder(today: Date, sched: Schedule, anchors: Anchors): Bakfile -> bool
    requires ValidDate(today)
  {
    (b: Bakfile) => b.date.Some? && ValidDate(b.date.value)
                    && DetermineBackupSchedule(b.date.value, today, sched, anchors).None?
  }

  /** A record with a name and a valid creation date. */
  predicate Complete(b: Bakfile)
  {
    b.name.Some? && b.date.Some? && ValidDate(b.date.value)
  }

  /** Every record of a local catalog has a name and a valid creation date. */
  lemma LocalRecordsAreComplete(es: seq<DirEntry>, bkpdir: Option<string>, basename: Option<string>)
    requires LocalCatalog(es, bkpdir, basename).Ok?
    ensures forall k | 0 <= k < |LocalCatalog(es, bkpdir, basename).value| :: Complete(LocalCatalog(es, bkpdir, basename).value[k])
  {
    LocalCatalogContents(es, bkpdir, basename);
  }

  /** Every record of a remote catalog has a name and a valid creation date. */
  lemma RemoteRecordsAreComplete(objects: seq<S3Object>, basename: Option<string>)
    requires RemoteCatalog(objects, basename).Ok?
    ensures forall k | 0 <= k < |RemoteCatalog(objects, basename).value| :: Complete(RemoteCatalog(objects, basename).value[k])
  {
    RemoteCatalogContents(objects, basename);
  }

  /** Deleting a local backup: its related files, through `ModuleBackupGeneric#delete`. */
  function LocalDelete(bkpdir: Option<string>): (seq<DirEntry>, Bakfile) -> (seq<DirEntry>, bool)
  {
    (es: seq<DirEntry>, b: Bakfile) => DeleteFiles(es, bkpdir, RelatedFiles(b))
  }

  /** Phase 2.2: the rotation pass over the local catalog under the backup schedule;
      a missing catalog raises at once. */
  function LocalRotation(cfg: EntryConfig, today: Date, anchors: Anchors, es: seq<DirEntry>, localist: Option<seq<Bakfile>>)
    : (seq<DirEntry>, Option<seq<Bakfile>>, nat)
    requires ValidDate(today)
  {
    if localist.None? then (es, None, 1)
    else
      var r := Sweep(es, localist.value, 0, ExpiredUnder(today, cfg.backupSchedule, anchors), LocalDelete(cfg.bkpdir));
      (r.0, Some(r.1), if r.2 then 0 else 1)
  }

  // ---------------------------------------------------------------------------
  // 3. Remote storage

  /** Phase 3.1: the remote catalog. */
  function RemoteListPhase(cfg: EntryConfig, reachable: bool, objects: seq<S3Object>): (Option<seq<Bakfile>>, nat)
  {
    var r := if reachable then RemoteCatalog(objects, cfg.basename) else Err(Unreachable);
    if r.Err? then (None, 1) else (Some(r.value), 0)
  }

  /** A remote record is the same backup as `l` when it has the same name and size. */
  function SameNameAndSize(l: Bakfile): Bakfile -> bool
  {
    (r: Bakfile) => r.name == l.name && r.size == l.size
  }

  /** The files of local backup `l` to upload: all its related files when no remote
      record has its name and size; otherwise, judged against the first such record,
      its sidecars when the two checksum signatures differ, and nothing when they are
      the same. */
  function UploadPlan(l: Bakfile, remotelist: seq<Bakfile>): seq<string>
  {
    var matches := Seqs.Filter(remotelist, SameNameAndSize(l));
    if |matches| == 0 then RelatedFiles(l)
    else if SumList(l) != SumList(matches[0]) && l.name.Some? then SidecarNames(l.name.value, l.csum)
    else []
  }

  /** The size of the local file `name`, when it is a regular file `upload_file` can read. */
  function LocalSize(es: seq<DirEntry>, name: string): Option<int>
  {
    if IsRegularFile(es, name) then Some(Lookup(es, name).value.size) else None
  }

  /** Sending `files` of the backup directory one after the other, stopping at the first
      that raises; `File.join` with no directory raises before the first send. */
  function SendFiles(objects: seq<S3Object>, reachable: bool, bkpdir: Option<string>, es: seq<DirEntry>, files: seq<string>)
    : (seq<S3Object>, bool)
    decreases |files|
  {
    if files == [] then (objects, true)
    else if bkpdir.None? then (objects, false)
    else
      var r := SendEffect(objects, reachable, JoinPath(bkpdir.value, files[0]), LocalSize(es, files[0]));
      if r.1.Err? then (r.0, false) else SendFiles(r.0, reachable, bkpdir, es, files[1..])
  }

  /** One turn of the upload loop, for local record `b` under remote schedule `sched`:
      a record that does not fit the schedule is passed over (`next`); a missing remote
      catalog raises; otherwise the planned files are sent. */
  function UploadStep(cfg: EntryConfig, today: Date, anchors: Anchors, sched: Schedule, reachable: bool, es: seq<DirEntry>,
                      objects: seq<S3Object>, b: Bakfile, remotelist: Option<seq<Bakfile>>)
    : (seq<S3Object>, bool)
    requires ValidDate(today)
  {
    if ExpiredUnder(today, sched, anchors)(b) then (objects, true)
    else if remotelist.None? then (objects, false)
    else SendFiles(objects, reachable, cfg.bkpdir, es, UploadPlan(b, remotelist.value))
  }

  /** The upload loop from the `i`-th local record on; a missing remote schedule raises
      at the first record. */
  function UploadFrom(cfg: EntryConfig, today: Date, anchors: Anchors, reachable: bool, es: seq<DirEntry>,
                      objects: seq<S3Object>, l: seq<Bakfile>, remotelist: Option<seq<Bakfile>>, i: nat)
    : (seq<S3Object>, bool)
    requires ValidDate(today)
    decreases |l| - i
  {
    if i >= |l| then (objects, true)
    else if cfg.remoteSchedule.None? then (objects, false)
    else
      var r := UploadStep(cfg, today, anchors, cfg.remoteSchedule.value, reachable, es, objects, l[i], remotelist);
      if !r.1 then r else UploadFrom(cfg, today, anchors, reachable, es, r.0, l, remotelist, i + 1)
  }

  /** Phase 3.2: the uploads; a missing local catalog raises at once. */
  function Upload(cfg: EntryConfig, today: Date, anchors: Anchors, reachable: bool, es: seq<DirEntry>,
                  objects: seq<S3Object>, localist: Option<seq<Bakfile>>, remotelist: Option<seq<Bakfile>>)
    : (seq<S3Object>, nat)
    requires ValidDate(today)
  {
    if localist.None? then (objects, 1)
    else
      var r := UploadFrom(cfg, today, anchors, reachable, es, objects, localist.value, remotelist, 0);
      (r.0, if r.1 then 0 else 1)
  }

  /** Deleting `keys` one after the other; an unreachable bucket raises at the first. */
  function DeleteKeys(objects: seq<S3Object>, reachable: bool, keys: seq<string>): (seq<S3Object>, bool)
    decreases |keys|
  {
    if keys == [] then (objects, true)
    else if !reachable then (objects, false)
    else DeleteKeys(WithoutKey(objects, keys[0]), reachable, keys[1..])
  }

  /** Deleting a remote backup: each of its related files. */
  function RemoteDelete(reachable: bool): (seq<S3Object>, Bakfile) -> (seq<S3Object>, bool)
  {
    (os: seq<S3Object>, b: Bakfile) => DeleteKeys(os, reachable, RelatedFiles(b))
  }

  /** Phase 3.3: the rotation pass over the remote catalog as it was listed before the
      uploads, under the remote schedule. A missing catalog raises at once, a missing
      schedule at the first record. */
  function RemoteRotation(cfg: EntryConfig, today: Date, anchors: Anchors, reachable: bool,
                          objects: seq<S3Object>, remotelist: Option<seq<Bakfile>>)
    : (seq<S3Object>, Option<seq<Bakfile>>, nat)
    requires ValidDate(today)
  {
    if remotelist.None? then (objects, None, 1)
    else if cfg.remoteSchedule.None? then (objects, remotelist, if remotelist.value == [] then 0 else 1)
    else
      var r := Sweep(objects, remotelist.value, 0, ExpiredUnder(today, cfg.remoteSchedule.value, anchors), RemoteDelete(reachable));
      (r.0, Some(r.1), if r.2 then 0 else 1)
  }

  // ---------------------------------------------------------------------------
  // The whole entry

  /** What one run of `process_entry` leaves: its error count, the backup directory,
      the bucket, and the two catalogs as they stand at the end. */
  datatype EntryOutcome = EntryOutcome(errors: nat, entries: seq<DirEntry>, objects: seq<S3Object>,
                                       localist: Option<seq<Bakfile>>, remotelist: Option<seq<Bakfile>>)

  /** The phases in order. */
  function EntryRun(cfg: EntryConfig, o: Oracle, today: Date, anchors: Anchors, reachable: bool,
                    es: seq<DirEntry>, objects: seq<S3Object>): EntryOutcome
    requires ValidDate(today)
  {
    var c := CreatePhase(cfg, o, today, anchors, es);
    var listed := ListPhase(cfg, c.entries);
    var rotated := LocalRotation(cfg, today, anchors, c.entries, listed.0);
    var errors := c.errors + listed.1 + rotated.2;
    if !cfg.hasRemote then EntryOutcome(errors, rotated.0, objects, rotated.1, None)
    else
      var rlisted := RemoteListPhase(cfg, reachable, objects);
      var uploaded := Upload(cfg, today, anchors, reachable, rotated.0, objects, rotated.1, rlisted.0);
      var rrotated := RemoteRotation(cfg, today, anchors, reachable, uploaded.0, rlisted.0);
      EntryOutcome(errors + rlisted.1 + uploaded.1 + rrotated.2, rotated.0, rrotated.0, rotated.1, rrotated.1)
  }

  // ---------------------------------------------------------------------------
  // The procedure

  /** Step 1.2 on the backup directory. */
  method EncryptStep(cfg: EntryConfig, o: Oracle, local: LocalDir, bkpfile: Option<string>, errors: nat)
    returns (bkpfile': Option<string>, errors': nat)
    modifies local
    ensures Created(local.entries, bkpfile', None, errors') == Encrypt(cfg, o, Created(old(local.entries), bkpfile, None, errors))
  {
    bkpfile', errors' := bkpfile, errors;
    if cfg.hasEncrypt && cfg.bkpdir.Some? && bkpfile.Some? {
      match o.encrypted {
        case Err(_) =>
          bkpfile' := None;
          errors' := errors + 1;
        case Ok(f) =>
          // the encrypted copy replaces the unencrypted file
          local.entries := Put(Without(local.entries, bkpfile.value), f);
          bkpfile' := Some(f.name);
      }
    }
  }

  /** Step 1.3 on the backup directory. */
  method ChecksumStep(cfg: EntryConfig, o: Oracle, local: LocalDir, bkpfile: Option<string>, errors: nat)
    returns (sumfile: Option<string>, errors': nat)
    modifies local
    ensures Created(local.entries, bkpfile, sumfile, errors') == Checksum(cfg, o, Created(old(local.entries), bkpfile, None, errors))
  {
    sumfile, errors' := None, errors;
    if cfg.bkpdir.Some? && bkpfile.Some? {
      var r := local.MkCsum(cfg.bkpdir, bkpfile.value, o.digest, o.now, o.newAttrs);
      if r.Ok? {
        sumfile := Some(r.value);
      } else {
        errors' := errors + 1;
      }
    }
  }

  /** Step 1.4 on the backup directory. */
  method PermStep(cfg: EntryConfig, o: Oracle, local: LocalDir, bkpfile: Option<string>, sumfile: Option<string>, errors: nat)
    returns (errors': nat)
    modifies local
    ensures Created(local.entries, bkpfile, sumfile, errors')
            == SetPermissions(cfg, o, Created(old(local.entries), bkpfile, sumfile, errors))
  {
    errors' := errors;
    if bkpfile.Some? || sumfile.Some? {
      var ok := local.SetPerm(cfg.bkpdir, bkpfile, sumfile, cfg.owner, cfg.group, cfg.mode, o.refused);
      if !ok {
        errors' := errors + 1;
      }
    }
  }

  /** Phase 1 on the backup directory. */
  method CreateBackup(cfg: EntryConfig, o: Oracle, local: LocalDir, today: Date, anchors: Anchors)
    returns (bkpfile: Option<string>, sumfile: Option<string>, errors: nat)
    requires ValidDate(today)
    modifies local
    ensures Created(local.entries, bkpfile, sumfile, errors) == CreatePhase(cfg, o, today, anchors, old(local.entries))
  {
    bkpfile, sumfile, errors := None, None, 0;
    if !(cfg.hasBackup && DetermineBackupSchedule(today, today, cfg.backupSchedule, anchors).Some?) {
      return;
    }
    // 1.1 the producing module writes its file into the directory
    match o.produced {
      case Err(_) =>
        errors := 1;
      case Ok(None) =>
      case Ok(Some(f)) =>
        local.entries := Put(local.entries, f);
        bkpfile := Some(f.name);
    }
    ghost var c1 := Created(local.entries, bkpfile, None, errors);
    assert c1 == Produce(o, old(local.entries));
    bkpfile, errors := EncryptStep(cfg, o, local, bkpfile, errors);
    ghost var c2 := Created(local.entries, bkpfile, None, errors);
    sumfile, errors := ChecksumStep(cfg, o, local, bkpfile, errors);
    ghost var c3 := Created(local.entries, bkpfile, sumfile, errors);
    assert c3 == Checksum(cfg, o, c2);
    errors := PermStep(cfg, o, local, bkpfile, sumfile, errors);
  }

  /** Phase 2.1. */
  method ListLocal(cfg: EntryConfig, local: LocalDir) returns (localist: Option<seq<Bakfile>>, errors: nat)
    ensures (localist, errors) == ListPhase(cfg, local.entries)
  {
    if !cfg.hasBackup {
      return None, 1;
    }
    var r := local.List(cfg.bkpdir, cfg.basename);
    if r.Err? {
      return None, 1;
    }
    return Some(r.value), 0;
  }

  /** Phase 2.2: `each` over the catalog, deleting the expired backups and removing
      them from the catalog while it is being walked. */
  method RotateLocal(cfg: EntryConfig, local: LocalDir, today: Date, anchors: Anchors, localist: Option<seq<Bakfile>>)
    returns (after: Option<seq<Bakfile>>, errors: nat)
    requires ValidDate(today)
    modifies local
    ensures (local.entries, after, errors) == LocalRotation(cfg, today, anchors, old(local.entries), localist)
  {
    if localist.None? {
      return None, 1;
    }
    ghost var expired := ExpiredUnder(today, cfg.backupSchedule, anchors);
    ghost var del := LocalDelete(cfg.bkpdir);
    var l := localist.value;
    var i := 0;
    while i < |l|
      invariant Sweep(local.entries, l, i, expired, del) == Sweep(old(local.entries), localist.value, 0, expired, del)
      decreases |l| - i
    {
      var b := l[i];
      if b.date.Some? && ValidDate(b.date.value) && DetermineBackupSchedule(b.date.value, today, cfg.backupSchedule, anchors).None? {
        assert expired(b);
        var ok := local.Delete(cfg.bkpdir, b);
        if !ok {
          return Some(l), 1;
        }
        l := l[..i] + l[i + 1..];
      }
      i := i + 1;
    }
    return Some(l), 0;
  }

  /** Phase 3.1. */
  method ListRemote(cfg: EntryConfig, remote: Bucket) returns (remotelist: Option<seq<Bakfile>>, errors: nat)
    ensures (remotelist, errors) == RemoteListPhase(cfg, remote.reachable, remote.objects)
  {
    var r := remote.List(cfg.basename);
    if r.Err? {
      return None, 1;
    }
    return Some(r.value), 0;
  }

  /** The inner loop of phase 3.2: `File.join` each file with the directory and send it. */
  method SendAll(remote: Bucket, bkpdir: Option<string>, es: seq<DirEntry>, files: seq<string>) returns (ok: bool)
    modifies remote
    ensures (remote.objects, ok) == SendFiles(old(remote.objects), old(remote.reachable), bkpdir, es, files)
    ensures remote.reachable == old(remote.reachable)
  {
    var i := 0;
    while i < |files|
      invariant 0 <= i <= |files|
      invariant remote.reachable == old(remote.reachable)
      invariant SendFiles(remote.objects, remote.reachable, bkpdir, es, files[i..])
                == SendFiles(old(remote.objects), old(remote.reachable), bkpdir, es, files)
    {
      if bkpdir.None? {
        return false;
      }
      assert files[i..][1..] == files[i + 1..];
      var r := remote.Send(JoinPath(bkpdir.value, files[i]), LocalSize(es, files[i]));
      if r.Err? {
        return false;
      }
      i := i + 1;
    }
    return true;
  }

  /** One turn of the upload loop: a backup that fits the remote schedule has its
      planned files sent; an expired one is skipped. */
  method UploadOne(cfg: EntryConfig, local: LocalDir, remote: Bucket, today: Date, anchors: Anchors,
                   sched: Schedule, b: Bakfile, remotelist: Option<seq<Bakfile>>)
    returns (ok: bool)
    requires ValidDate(today)
    modifies remote
    ensures (remote.objects, ok)
            == UploadStep(cfg, today, anchors, sched, old(remote.reachable), local.entries, old(remote.objects), b, remotelist)
    ensures remote.reachable == old(remote.reachable)
  {
    var fits := !(b.date.Some? && ValidDate(b.date.value)
                  && DetermineBackupSchedule(b.date.value, today, sched, anchors).None?);
    assert fits == !ExpiredUnder(today, sched, anchors)(b);
    if !fits {
      return true;
    }
    if remotelist.None? {
      return false;
    }
    ok := SendAll(remote, cfg.bkpdir, local.entries, UploadPlan(b, remotelist.value));
  }

  /** The upload loop from record `i` is its turn at `i` followed, when that turn
      succeeds, by the loop from `i + 1`. */
  lemma UploadFromStep(cfg: EntryConfig, today: Date, anchors: Anchors, reachable: bool, es: seq<DirEntry>,
                       objects: seq<S3Object>, l: seq<Bakfile>, remotelist: Option<seq<Bakfile>>, i: nat)
    requires ValidDate(today) && i < |l| && cfg.remoteSchedule.Some?
    ensures var r := UploadStep(cfg, today, anchors, cfg.remoteSchedule.value, reachable, es, objects, l[i], remotelist);
      UploadFrom(cfg, today, anchors, reachable, es, objects, l, remotelist, i)
      == if r.1 then UploadFrom(cfg, today, anchors, reachable, es, r.0, l, remotelist, i + 1) else r
  {
  }

  /** Phase 3.2: `each` over the local catalog, uploading what the remote side lacks. */
  method UploadAll(cfg: EntryConfig, local: LocalDir, remote: Bucket, today: Date, anchors: Anchors,
                   localist: Option<seq<Bakfile>>, remotelist: Option<seq<Bakfile>>)
    returns (errors: nat)
    requires ValidDate(today)
    modifies remote
    ensures (remote.objects, errors)
            == Upload(cfg, today, anchors, old(remote.reachable), local.entries, old(remote.objects), localist, remotelist)
    ensures remote.reachable == old(remote.reachable)
  {
    if localist.None? {
      return 1;
    }
    var l := localist.value;
    if |l| == 0 {
      return 0;
    }
    if cfg.remoteSchedule.None? {
      return 1;
    }
    var sched := cfg.remoteSchedule.value;
    ghost var whole := UploadFrom(cfg, today, anchors, remote.reachable, local.entries, remote.objects, l, remotelist, 0);
    var i := 0;
    while i < |l|
      invariant 0 <= i <= |l|
      invariant remote.reachable == old(remote.reachable)
      invariant UploadFrom(cfg, today, anchors, remote.reachable, local.entries, remote.objects, l, remotelist, i) == whole
    {
      UploadFromStep(cfg, today, anchors, remote.reachable, local.entries, remote.objects, l, remotelist, i);
      var ok := UploadOne(cfg, local, remote, today, anchors, sched, l[i], remotelist);
      if !ok {
        return 1;
      }
      i := i + 1;
    }
    return 0;
  }

  /** The inner loop of phase 3.3: delete each related file of a remote backup. */
  method DeleteRemote(remote: Bucket, b: Bakfile) returns (ok: bool)
    modifies remote
    ensures (remote.objects, ok) == DeleteKeys(old(remote.objects), old(remote.reachable), RelatedFiles(b))
    ensures remote.reachable == old(remote.reachable)
  {
    var files := ListAllRelatedFiles(b);
    var i := 0;
    while i < |files|
      invariant 0 <= i <= |files|
      invariant remote.reachable == old(remote.reachable)
      invariant DeleteKeys(remote.objects, remote.reachable, files[i..])
                == DeleteKeys(old(remote.objects), old(remote.reachable), files)
    {
      assert files[i..][1..] == files[i + 1..];
      var deleted := remote.Delete(files[i]);
      if !deleted {
        return false;
      }
      i := i + 1;
    }
    return true;
  }

  /** Phase 3.3: `each` over the remote catalog, deleting the expired backups and
      removing them from the catalog while it is being walked. */
  method RotateRemote(cfg: EntryConfig, remote: Bucket, today: Date, anchors: Anchors, remotelist: Option<seq<Bakfile>>)
    returns (after: Option<seq<Bakfile>>, errors: nat)
    requires ValidDate(today)
    modifies remote
    ensures (remote.objects, after, errors)
            == RemoteRotation(cfg, today, anchors, old(remote.reachable), old(remote.objects), remotelist)
    ensures remote.reachable == old(remote.reachable)
  {
    if remotelist.None? {
      return None, 1;
    }
    if cfg.remoteSchedule.None? {
      return remotelist, if remotelist.value == [] then 0 else 1;
    }
    ghost var expired := ExpiredUnder(today, cfg.remoteSchedule.value, anchors);
    ghost var del := RemoteDelete(remote.reachable);
    var l := remotelist.value;
    var i := 0;
    while i < |l|
      invariant remote.reachable == old(remote.reachable)
      invariant Sweep(remote.objects, l, i, expired, del) == Sweep(old(remote.objects), remotelist.value, 0, expired, del)
      decreases |l| - i
    {
      var b := l[i];
      if b.date.Some? && ValidDate(b.date.value) && DetermineBackupSchedule(b.date.value, today, cfg.remoteSchedule.value, anchors).None? {
        assert expired(b);
        var ok := DeleteRemote(remote, b);
        if !ok {
          return Some(l), 1;
        }
        l := l[..i] + l[i + 1..];
      }
      i := i + 1;
    }
    return Some(l), 0;
  }

  /** `process_entry`: the phases in order; the entry succeeds when none raised. */
  method ProcessEntry(cfg: EntryConfig, o: Oracle, local: LocalDir, remote: Bucket, today: Date, anchors: Anchors)
    returns (ok: bool)
    requires ValidDate(today)
    modifies local, remote
    ensures var r := EntryRun(cfg, o, today, anchors, old(remote.reachable), old(local.entries), old(remote.objects));
      && (ok <==> r.errors == 0)
      && local.entries == r.entries && remote.objects == r.objects
    ensures remote.reachable == old(remote.reachable)
  {
    var bkpfile, sumfile, errcount := CreateBackup(cfg, o, local, today, anchors);
    var localist, e1 := ListLocal(cfg, local);
    var e2;
    localist, e2 := RotateLocal(cfg, local, today, anchors, localist);
    errcount := errcount + e1 + e2;
    if cfg.hasRemote {
      var remotelist, e3 := ListRemote(cfg, remote);
      var e4 := UploadAll(cfg, local, remote, today, anchors, localist, remotelist);
      var e5;
      remotelist, e5 := RotateRemote(cfg, remote, today, anchors, remotelist);
      errcount := errcount + e3 + e4 + e5;
    }
    return errcount == 0;
  }

  // ---------------------------------------------------------------------------
  // Properties of the creation phase

  /** Nothing is created unless the entry is due. A sidecar name only ever comes with a
      backup file name and a directory, and is `<bkpfile>.sha256`. A backup file name
      only comes from a production. A producer that raises leaves the directory alone
      and costs exactly one error, and so does an encryptor that raises. */
  lemma CreationFacts(cfg: EntryConfig, o: Oracle, today: Date, anchors: Anchors, es: seq<DirEntry>)
    requires ValidDate(today)
    ensures var c := CreatePhase(cfg, o, today, anchors, es);
      && (!Due(cfg, today, anchors) ==> c == Created(es, None, None, 0))
      && (c.sumfile.Some? ==>
            c.bkpfile.Some? && cfg.bkpdir.Some? && c.sumfile.value == SidecarName(c.bkpfile.value, DefaultSumType))
      && (c.bkpfile.Some? ==> Due(cfg, today, anchors) && o.produced.Ok? && o.produced.value.Some?)
      && (Due(cfg, today, anchors) && o.produced.Err? ==>
            c.entries == es && c.bkpfile.None? && c.sumfile.None? && c.errors == 1)
      && (Due(cfg, today, anchors) && o.produced.Ok? && o.produced.value.Some?
          && cfg.hasEncrypt && cfg.bkpdir.Some? && o.encrypted.Err? ==>
            c.bkpfile.None? && c.sumfile.None? && c.errors == 1)
  {
    if Due(cfg, today, anchors) {
      var c2 := Encrypt(cfg, o, Produce(o, es));
      var c3 := Checksum(cfg, o, c2);
      if cfg.bkpdir.Some? && c2.bkpfile.Some? {
        var m := MkCsumEffect(c2.entries, cfg.bkpdir, c2.bkpfile.value, o.digest, o.now, o.newAttrs);
        if m.1.Ok? {
          MkCsumResult(c2.entries, cfg.bkpdir, c2.bkpfile.value, o.digest, o.now, o.newAttrs);
        }
      }
    }
  }

  /** A regular file freshly produced into a directory with no directory in the way of
      its sidecar, and not encrypted, gets its `sha256` sidecar. */
  lemma FreshBackupGetsSidecar(cfg: EntryConfig, o: Oracle, today: Date, anchors: Anchors, es: seq<DirEntry>, f: DirEntry)
    requires ValidDate(today) && Due(cfg, today, anchors)
    requires o.produced == Ok(Some(f)) && f.kind == RegularFile
    requires !cfg.hasEncrypt && cfg.bkpdir.Some?
    requires forall k | 0 <= k < |es| :: es[k].name == SidecarName(f.name, DefaultSumType) ==> es[k].kind != Directory
    ensures CreatePhase(cfg, o, today, anchors, es).bkpfile == Some(f.name)
    ensures CreatePhase(cfg, o, today, anchors, es).sumfile == Some(SidecarName(f.name, DefaultSumType))
  {
    var es1 := Put(es, f);
    PutFacts(es, f);
    assert IsRegularFile(es1, f.name);
    var side := SidecarName(f.name, DefaultSumType);
    assert side != f.name by {
      assert |side| > |f.name|;
    }
    var prev := Lookup(es1, side);
    if prev.Some? {
      assert prev.value in es1 && prev.value.name == side;
      var k :| 0 <= k < |es1| && es1[k] == prev.value;
      assert es1[k] in es;
    }
    var m := MkCsumEffect(es1, cfg.bkpdir, f.name, o.digest, o.now, o.newAttrs);
    assert m.1 == Ok(side);
  }

  // ---------------------------------------------------------------------------
  // Properties of error counting

  /** A failed local listing leaves the catalog `nil`: the rotation then raises too, and
      so do the uploads when the entry has a remote module. */
  lemma FailedListingCascades(cfg: EntryConfig, o: Oracle, today: Date, anchors: Anchors, reachable: bool,
                              es: seq<DirEntry>, objects: seq<S3Object>)
    requires ValidDate(today)
    requires ListPhase(cfg, CreatePhase(cfg, o, today, anchors, es).entries).0.None?
    ensures EntryRun(cfg, o, today, anchors, reachable, es, objects).errors >= if cfg.hasRemote then 3 else 2
  {
  }

  /** A failed remote listing leaves the remote catalog `nil`: the remote rotation then
      raises too. */
  lemma FailedRemoteListingCascades(cfg: EntryConfig, o: Oracle, today: Date, anchors: Anchors, reachable: bool,
                                    es: seq<DirEntry>, objects: seq<S3Object>)
    requires ValidDate(today) && cfg.hasRemote
    requires RemoteListPhase(cfg, reachable, objects).0.None?
    ensures EntryRun(cfg, o, today, anchors, reachable, es, objects).errors >= 2
  {
  }

  /** A bucket that cannot be reached is never changed: every send raises before it
      writes. */
  lemma {:induction false} UnreachableUploadChangesNothing(cfg: EntryConfig, today: Date, anchors: Anchors, es: seq<DirEntry>,
                                                           objects: seq<S3Object>, l: seq<Bakfile>,
                                                           remotelist: Option<seq<Bakfile>>, i: nat)
    requires ValidDate(today)
    ensures UploadFrom(cfg, today, anchors, false, es, objects, l, remotelist, i).0 == objects
    decreases |l| - i
  {
    if i < |l| && cfg.remoteSchedule.Some? {
      if ExpiredUnder(today, cfg.remoteSchedule.value, anchors)(l[i]) {
        UnreachableUploadChangesNothing(cfg, today, anchors, es, objects, l, remotelist, i + 1);
      } else if remotelist.Some? {
        var files := UploadPlan(l[i], remotelist.value);
        if files != [] {
          assert SendFiles(objects, false, cfg.bkpdir, es, files).0 == objects;
        } else {
          UnreachableUploadChangesNothing(cfg, today, anchors, es, objects, l, remotelist, i + 1);
        }
      }
    }
  }

  /** With an unreachable bucket, the bucket is left as it was and the entry fails:
      the remote listing and the remote rotation both raise. */
  lemma UnreachableBucketIsLeftAlone(cfg: EntryConfig, o: Oracle, today: Date, anchors: Anchors,
                                     es: seq<DirEntry>, objects: seq<S3Object>)
    requires ValidDate(today) && cfg.hasRemote
    ensures EntryRun(cfg, o, today, anchors, false, es, objects).objects == objects
    ensures EntryRun(cfg, o, today, anchors, false, es, objects).errors >= 2
  {
    var c := CreatePhase(cfg, o, today, anchors, es);
    var rotated := LocalRotation(cfg, today, anchors, c.entries, ListPhase(cfg, c.entries).0);
    if rotated.1.Some? {
      UnreachableUploadChangesNothing(cfg, today, anchors, rotated.0, objects, rotated.1.value, None, 0);
    }
  }

  // ---------------------------------------------------------------------------
  // Properties of the rotations

  /** Deleting the local backups `ds` one after the other removes only their related
      files. */
  lemma LocalDeleteAllEffect(es: seq<DirEntry>, bkpdir: Option<string>, ds: seq<Bakfile>)
    ensures var r := DeleteAll(es, ds, LocalDelete(bkpdir));
      && (forall k | 0 <= k < |r.0| :: r.0[k] in es)
      && (forall k | 0 <= k < |es| && (forall j | 0 <= j < |ds| :: es[k].name !in RelatedFiles(ds[j])) :: es[k] in r.0)
  {
    var r := DeleteAll(es, ds, LocalDelete(bkpdir));
    LocalDeleteAllKeepsOnly(es, bkpdir, ds);
    LocalDeleteAllKeepsOthers(es, bkpdir, ds);
    forall k | 0 <= k < |r.0| ensures r.0[k] in es {
      assert r.0[k] in r.0;
    }
    forall k | 0 <= k < |es| && (forall j | 0 <= j < |ds| :: es[k].name !in RelatedFiles(ds[j]))
      ensures es[k] in r.0
    {
      assert es[k] in es;
    }
  }

  lemma {:induction false} LocalDeleteAllKeepsOnly(es: seq<DirEntry>, bkpdir: Option<string>, ds: seq<Bakfile>)
    ensures forall e | e in DeleteAll(es, ds, LocalDelete(bkpdir)).0 :: e in es
    decreases |ds|
  {
    if ds != [] {
      var d := DeleteFiles(es, bkpdir, RelatedFiles(ds[0]));
      assert LocalDelete(bkpdir)(es, ds[0]) == d;
      DeleteFilesKeepsOnly(es, bkpdir, RelatedFiles(ds[0]));
      if d.1 {
        LocalDeleteAllKeepsOnly(d.0, bkpdir, ds[1..]);
      }
    }
  }

  lemma {:induction false} LocalDeleteAllKeepsOthers(es: seq<DirEntry>, bkpdir: Option<string>, ds: seq<Bakfile>)
    ensures forall e | e in es && (forall j | 0 <= j < |ds| :: e.name !in RelatedFiles(ds[j])) ::
              e in DeleteAll(es, ds, LocalDelete(bkpdir)).0
    decreases |ds|
  {
    if ds != [] {
      var d := DeleteFiles(es, bkpdir, RelatedFiles(ds[0]));
      assert LocalDelete(bkpdir)(es, ds[0]) == d;
      DeleteFilesKeepsOthers(es, bkpdir, RelatedFiles(ds[0]));
      if d.1 {
        LocalDeleteAllKeepsOthers(d.0, bkpdir, ds[1..]);
        forall e | e in es && (forall j | 0 <= j < |ds| :: e.name !in RelatedFiles(ds[j]))
          ensures forall j | 0 <= j < |ds[1..]| :: e.name !in RelatedFiles(ds[1..][j])
        {
          assert e.name !in RelatedFiles(ds[0]);
          forall j | 0 <= j < |ds[1..]| ensures e.name !in RelatedFiles(ds[1..][j]) {
            assert ds[1..][j] == ds[j + 1];
          }
        }
      }
    }
  }

  /** Local rotation deletes only files of backups whose date fits no tier of the backup
      schedule: the directory afterwards holds nothing new, and every file that belongs
      to no expired backup of the catalog is still there. When the pass completes, every
      backup that has not expired is still in the catalog. */
  lemma LocalRotationDeletesOnlyExpired(cfg: EntryConfig, today: Date, anchors: Anchors, es: seq<DirEntry>, l: seq<Bakfile>)
    requires ValidDate(today)
    ensures var r := LocalRotation(cfg, today, anchors, es, Some(l));
      var expired := ExpiredUnder(today, cfg.backupSchedule, anchors);
      && (forall k | 0 <= k < |r.0| :: r.0[k] in es)
      && (forall k | 0 <= k < |es| && (forall b | b in l && expired(b) :: es[k].name !in RelatedFiles(b)) :: es[k] in r.0)
      && (r.2 == 0 ==> forall b | b in l && !expired(b) :: b in r.1.value)
  {
    var expired := ExpiredUnder(today, cfg.backupSchedule, anchors);
    var del := LocalDelete(cfg.bkpdir);
    SweepOutcome(es, l, 0, expired, del);
    assert l[0..] == l && l[..0] == [];
    var removed := Removed(l, expired);
    LocalDeleteAllEffect(es, cfg.bkpdir, removed);
    RemovedAreExpired(l, expired);
    forall b | b in l && !expired(b) ensures b in Kept(l, expired) {
      LiveRecordsSurvive(l, expired, b);
    }
  }

  /** Deleting remote keys: only objects with those keys go, and when every deletion
      succeeded none of them is left. */
  lemma {:induction false} DeleteKeysEffect(objects: seq<S3Object>, reachable: bool, keys: seq<string>)
    ensures var r := DeleteKeys(objects, reachable, keys);
      && (forall k | 0 <= k < |r.0| :: r.0[k] in objects)
      && (forall k | 0 <= k < |objects| && objects[k].key !in keys :: objects[k] in r.0)
      && (r.1 ==> forall k | 0 <= k < |r.0| :: r.0[k].key !in keys)
      && (r.1 <==> reachable || keys == [])
    decreases |keys|
  {
    if keys != [] && reachable {
      var w := WithoutKey(objects, keys[0]);
      WithoutKeyFacts(objects, keys[0]);
      DeleteKeysEffect(w, reachable, keys[1..]);
      var r := DeleteKeys(w, reachable, keys[1..]);
      forall k | 0 <= k < |r.0| ensures r.0[k].key !in keys {
        assert r.0[k] in w;
        assert keys == [keys[0]] + keys[1..];
      }
    }
  }

  /** Deleting the remote backups `ds` one after the other removes only objects keyed by
      their related files, and when it completes none of those is left. */
  lemma {:induction false} RemoteDeleteAllEffect(objects: seq<S3Object>, reachable: bool, ds: seq<Bakfile>)
    ensures var r := DeleteAll(objects, ds, RemoteDelete(reachable));
      && (forall k | 0 <= k < |r.0| :: r.0[k] in objects)
      && (forall k | 0 <= k < |objects| && (forall j | 0 <= j < |ds| :: objects[k].key !in RelatedFiles(ds[j])) :: objects[k] in r.0)
      && (r.1 ==> forall k, j | 0 <= k < |r.0| && 0 <= j < |ds| :: r.0[k].key !in RelatedFiles(ds[j]))
    decreases |ds|
  {
    if ds != [] {
      var d := DeleteKeys(objects, reachable, RelatedFiles(ds[0]));
      assert RemoteDelete(reachable)(objects, ds[0]) == d;
      DeleteKeysEffect(objects, reachable, RelatedFiles(ds[0]));
      if d.1 {
        RemoteDeleteAllEffect(d.0, reachable, ds[1..]);
        var r := DeleteAll(d.0, ds[1..], RemoteDelete(reachable));
        forall k | 0 <= k < |objects| && (forall j | 0 <= j < |ds| :: objects[k].key !in RelatedFiles(ds[j]))
          ensures objects[k] in r.0
        {
          assert objects[k].key !in RelatedFiles(ds[0]);
          var k' :| 0 <= k' < |d.0| && d.0[k'] == objects[k];
          forall j | 0 <= j < |ds[1..]| ensures d.0[k'].key !in RelatedFiles(ds[1..][j]) {
            assert ds[1..][j] == ds[j + 1];
          }
        }
        forall k | 0 <= k < |r.0| ensures r.0[k] in objects {
          assert r.0[k] in d.0;
        }
        if r.1 {
          forall k, j | 0 <= k < |r.0| && 0 <= j < |ds| ensures r.0[k].key !in RelatedFiles(ds[j]) {
            if j == 0 {
              assert r.0[k] in d.0;
            } else {
              assert ds[1..][j - 1] == ds[j];
            }
          }
        }
      }
    }
  }

  /** Remote rotation deletes only objects of backups whose date fits no tier of the
      remote schedule, and keeps every object that belongs to no expired backup. When it
      completes, none of the files of the backups it deleted is left, and every backup
      that has not expired is still in the catalog. */
  lemma RemoteRotationDeletesOnlyExpired(cfg: EntryConfig, today: Date, anchors: Anchors, reachable: bool,
                                         objects: seq<S3Object>, l: seq<Bakfile>)
    requires ValidDate(today) && cfg.remoteSchedule.Some?
    ensures var r := RemoteRotation(cfg, today, anchors, reachable, objects, Some(l));
      var expired := ExpiredUnder(today, cfg.remoteSchedule.value, anchors);
      && (forall k | 0 <= k < |r.0| :: r.0[k] in objects)
      && (forall k | 0 <= k < |objects| && (forall b | b in l && expired(b) :: objects[k].key !in RelatedFiles(b)) :: objects[k] in r.0)
      && (r.2 == 0 ==> forall b | b in l && !expired(b) :: b in r.1.value)
      && (r.2 == 0 ==> forall k, j | 0 <= k < |r.0| && 0 <= j < |Removed(l, expired)| ::
                          r.0[k].key !in RelatedFiles(Removed(l, expired)[j]))
  {
    var expired := ExpiredUnder(today, cfg.remoteSchedule.value, anchors);
    var del := RemoteDelete(reachable);
    SweepOutcome(objects, l, 0, expired, del);
    assert l[0..] == l && l[..0] == [];
    var removed := Removed(l, expired);
    RemoteDeleteAllEffect(objects, reachable, removed);
    RemovedAreExpired(l, expired);
    forall b | b in l && !expired(b) ensures b in Kept(l, expired) {
      LiveRecordsSurvive(l, expired, b);
    }
  }

  // ---------------------------------------------------------------------------
  // Properties of the uploads

  lemma SidecarNamesDifferFromName(name: string, exts: seq<string>)
    ensures name !in SidecarNames(name, exts)
  {
    forall k | 0 <= k < |exts| ensures SidecarNames(name, exts)[k] != name {
      assert |SidecarName(name, exts[k])| > |name|;
    }
  }

  /** The upload plan of a named local backup: it only ever names related files of the
      backup; the main file is in it exactly when no remote record has the same name and
      size; and it is empty exactly when such a record exists and, judged by the first
      one, either the checksum signatures agree or there are no local sidecars. */
  lemma UploadPlanCases(l: Bakfile, remotelist: seq<Bakfile>)
    requires l.name.Some?
    ensures var plan := UploadPlan(l, remotelist);
      var matches := Seqs.Filter(remotelist, SameNameAndSize(l));
      && (forall f | f in plan :: f in RelatedFiles(l))
      && (l.name.value in plan <==> forall k | 0 <= k < |remotelist| :: !(remotelist[k].name == l.name && remotelist[k].size == l.size))
      && (matches != [] ==> matches[0] in remotelist && matches[0].name == l.name && matches[0].size == l.size)
      && (plan == [] <==> matches != [] && (SumList(l) == SumList(matches[0]) || l.csum == []))
  {
    var matches := Seqs.Filter(remotelist, SameNameAndSize(l));
    var name := l.name.value;
    SidecarNamesDifferFromName(name, l.csum);
    if matches != [] {
      assert SameNameAndSize(l)(matches[0]);
    } else {
      forall k | 0 <= k < |remotelist| ensures !SameNameAndSize(l)(remotelist[k]) {
        if SameNameAndSize(l)(remotelist[k]) {
          assert false;
        }
      }
    }
    forall f | f in UploadPlan(l, remotelist) ensures f in RelatedFiles(l) {
      assert RelatedFiles(l) == [name] + SidecarNames(name, l.csum);
    }
  }

  /** A remote copy with the same name and size and the same checksum extensions, in any
      order, means nothing is uploaded, when every such copy agrees. */
  lemma MirroredCopyNeedsNoUpload(l: Bakfile, remotelist: seq<Bakfile>, k: int)
    requires 0 <= k < |remotelist| && SameNameAndSize(l)(remotelist[k])
    requires forall j | 0 <= j < |remotelist| && SameNameAndSize(l)(remotelist[j]) :: multiset(remotelist[j].csum) == multiset(l.csum)
    ensures UploadPlan(l, remotelist) == []
  {
    var matches := Seqs.Filter(remotelist, SameNameAndSize(l));
    assert remotelist[k] in matches;
    var j :| 0 <= j < |remotelist| && remotelist[j] == matches[0];
    SumListIgnoresOrder(l, matches[0]);
  }

  /** When the first remote copy with the same name and size carries other checksum
      extensions, exactly the local sidecars are uploaded, in the order of `csum`. */
  lemma ChangedSidecarsAreUploaded(l: Bakfile, remotelist: seq<Bakfile>)
    requires l.name.Some? && PlainExtensions(l.csum)
    requires Seqs.Filter(remotelist, SameNameAndSize(l)) != []
    requires var first := Seqs.Filter(remotelist, SameNameAndSize(l))[0];
      PlainExtensions(first.csum) && multiset(first.csum) != multiset(l.csum)
    ensures UploadPlan(l, remotelist) == SidecarNames(l.name.value, l.csum)
  {
    SumListEqualIff(l, Seqs.Filter(remotelist, SameNameAndSize(l))[0]);
  }

  /** The bucket holds an object keyed `f` whose size is that of the local file `f`. */
  ghost predicate HasCopy(objects: seq<S3Object>, es: seq<DirEntry>, f: string)
  {
    exists k | 0 <= k < |objects| :: objects[k].key == f && LocalSize(es, f) == Some(objects[k].size)
  }

  /** File names that `File.basename` gives back unchanged after `File.join`. */
  predicate PlainNames(files: seq<string>)
  {
    forall i | 0 <= i < |files| :: files[i] != [] && '/' !in files[i]
  }

  /** One successful send of a plain name: the object keyed by the name holds the size
      sent, and objects under other keys stay. */
  lemma SendOne(objects: seq<S3Object>, dir: string, f: string, size: int)
    requires f != [] && '/' !in f
    ensures var s := SendEffect(objects, true, JoinPath(dir, f), Some(size));
      && s.1 == Ok(f)
      && S3Object(f, size) in s.0
      && (forall k | 0 <= k < |objects| && objects[k].key != f :: objects[k] in s.0)
      && (forall k | 0 <= k < |s.0| :: s.0[k] in objects || s.0[k].key == f)
  {
    BasenameOfJoin(dir, f);
    var s := SendEffect(objects, true, JoinPath(dir, f), Some(size));
    var w := WithoutKey(objects, f);
    WithoutKeyFacts(objects, f);
    assert s.0 == w + [S3Object(f, size)];
    assert s.0[|w|] == S3Object(f, size);
    forall k | 0 <= k < |s.0| ensures s.0[k] in objects || s.0[k].key == f {
      if k < |w| {
        assert s.0[k] == w[k];
      }
    }
  }

  /** Sending plain file names: objects under other keys stay, every object afterwards
      was there before or is keyed by one of the files, and when every send succeeded
      each file has a copy of its local size. */
  lemma {:induction false} SendFilesEffect(objects: seq<S3Object>, reachable: bool, bkpdir: Option<string>,
                                           es: seq<DirEntry>, files: seq<string>)
    requires PlainNames(files)
    ensures var r := SendFiles(objects, reachable, bkpdir, es, files);
      && (forall k | 0 <= k < |objects| && objects[k].key !in files :: objects[k] in r.0)
      && (forall k | 0 <= k < |r.0| :: r.0[k] in objects || r.0[k].key in files)
      && (r.1 ==> forall f | f in files :: HasCopy(r.0, es, f))
    decreases |files|
  {
    if files != [] && bkpdir.Some? && reachable && LocalSize(es, files[0]).Some? {
      var f := files[0];
      var size := LocalSize(es, f).value;
      var s := SendEffect(objects, reachable, JoinPath(bkpdir.value, f), LocalSize(es, f));
      SendOne(objects, bkpdir.value, f, size);
      var rest := files[1..];
      assert files == [f] + rest;
      assert PlainNames(rest) by {
        forall i | 0 <= i < |rest| ensures rest[i] != [] && '/' !in rest[i] {
          assert rest[i] == files[i + 1];
        }
      }
      SendFilesEffect(s.0, reachable, bkpdir, es, rest);
      var r := SendFiles(s.0, reachable, bkpdir, es, rest);
      forall k | 0 <= k < |r.0| ensures r.0[k] in objects || r.0[k].key in files {
        if r.0[k] !in s.0 {
          assert r.0[k].key in rest;
        }
      }
      if r.1 && f !in rest {
        var k0 :| 0 <= k0 < |s.0| && s.0[k0] == S3Object(f, size);
        var k1 :| 0 <= k1 < |r.0| && r.0[k1] == s.0[k0];
        assert HasCopy(r.0, es, f);
      }
    }
  }

  /** The plan of any backup, named or not, lists only its related files. */
  lemma UploadPlanWithinRelated(l: Bakfile, remotelist: seq<Bakfile>)
    ensures forall f | f in UploadPlan(l, remotelist) :: f in RelatedFiles(l)
  {
    if l.name.Some? {
      UploadPlanCases(l, remotelist);
    }
  }

  /** The related files of every backup of the catalog are plain names, as names of
      files in one directory are. */
  predicate PlainRecords(l: seq<Bakfile>)
  {
    forall j | 0 <= j < |l| :: PlainNames(RelatedFiles(l[j]))
  }

  lemma PlanOfPlainRecordIsPlain(b: Bakfile, remotelist: seq<Bakfile>)
    requires PlainNames(RelatedFiles(b))
    ensures PlainNames(UploadPlan(b, remotelist))
  {
    var plan := UploadPlan(b, remotelist);
    UploadPlanWithinRelated(b, remotelist);
    forall i | 0 <= i < |plan| ensures plan[i] != [] && '/' !in plan[i] {
      assert plan[i] in RelatedFiles(b);
    }
  }

  /** A copy already in the bucket survives a successful series of sends. */
  lemma HasCopyPersists(objects: seq<S3Object>, reachable: bool, bkpdir: Option<string>, es: seq<DirEntry>,
                        files: seq<string>, f: string)
    requires PlainNames(files) && HasCopy(objects, es, f)
    requires SendFiles(objects, reachable, bkpdir, es, files).1
    ensures HasCopy(SendFiles(objects, reachable, bkpdir, es, files).0, es, f)
  {
    SendFilesEffect(objects, reachable, bkpdir, es, files);
    if f !in files {
      var r := SendFiles(objects, reachable, bkpdir, es, files).0;
      var k :| 0 <= k < |objects| && objects[k].key == f && LocalSize(es, f) == Some(objects[k].size);
      assert objects[k] in r;
      var k' :| 0 <= k' < |r| && r[k'] == objects[k];
    }
  }

  /** One turn of the upload loop: objects under keys it does not plan stay, new
      objects are keyed by related files of the record, and when it succeeds every
      planned file has a copy and every earlier copy survives. */
  lemma UploadStepEffect(cfg: EntryConfig, today: Date, anchors: Anchors, sched: Schedule, reachable: bool,
                         es: seq<DirEntry>, objects: seq<S3Object>, b: Bakfile, remotelist: Option<seq<Bakfile>>)
    requires ValidDate(today) && PlainNames(RelatedFiles(b))
    ensures var r := UploadStep(cfg, today, anchors, sched, reachable, es, objects, b, remotelist);
      && (forall k | 0 <= k < |objects| && objects[k].key !in RelatedFiles(b) :: objects[k] in r.0)
      && (forall k | 0 <= k < |r.0| :: r.0[k] in objects || r.0[k].key in RelatedFiles(b))
      && (r.1 && !ExpiredUnder(today, sched, anchors)(b) ==>
            remotelist.Some? && forall f | f in UploadPlan(b, remotelist.value) :: HasCopy(r.0, es, f))
      && (r.1 ==> forall f | HasCopy(objects, es, f) :: HasCopy(r.0, es, f))
  {
    if !ExpiredUnder(today, sched, anchors)(b) && remotelist.Some? {
      var files := UploadPlan(b, remotelist.value);
      PlanOfPlainRecordIsPlain(b, remotelist.value);
      UploadPlanWithinRelated(b, remotelist.value);
      SendFilesEffect(objects, reachable, cfg.bkpdir, es, files);
    }
    if UploadStep(cfg, today, anchors, sched, reachable, es, objects, b, remotelist).1 {
      forall f | HasCopy(objects, es, f)
        ensures HasCopy(UploadStep(cfg, today, anchors, sched, reachable, es, objects, b, remotelist).0, es, f)
      {
        UploadStepKeepsCopy(cfg, today, anchors, sched, reachable, es, objects, b, remotelist, f);
      }
    }
  }

  /** A successful turn of the upload loop keeps every earlier copy. */
  lemma UploadStepKeepsCopy(cfg: EntryConfig, today: Date, anchors: Anchors, sched: Schedule, reachable: bool,
                            es: seq<DirEntry>, objects: seq<S3Object>, b: Bakfile, remotelist: Option<seq<Bakfile>>,
                            f: string)
    requires ValidDate(today) && PlainNames(RelatedFiles(b)) && HasCopy(objects, es, f)
    requires UploadStep(cfg, today, anchors, sched, reachable, es, objects, b, remotelist).1
    ensures HasCopy(UploadStep(cfg, today, anchors, sched, reachable, es, objects, b, remotelist).0, es, f)
  {
    if !ExpiredUnder(today, sched, anchors)(b) && remotelist.Some? {
      var files := UploadPlan(b, remotelist.value);
      PlanOfPlainRecordIsPlain(b, remotelist.value);
      HasCopyPersists(objects, reachable, cfg.bkpdir, es, files, f);
    }
  }

  /** A copy already in the bucket survives a successful upload loop. */
  lemma {:induction false} UploadKeepsCopies(cfg: EntryConfig, today: Date, anchors: Anchors, reachable: bool,
                                             es: seq<DirEntry>, objects: seq<S3Object>, l: seq<Bakfile>,
                                             remotelist: Option<seq<Bakfile>>, i: nat, f: string)
    requires ValidDate(today) && PlainRecords(l) && HasCopy(objects, es, f)
    requires UploadFrom(cfg, today, anchors, reachable, es, objects, l, remotelist, i).1
    ensures HasCopy(UploadFrom(cfg, today, anchors, reachable, es, objects, l, remotelist, i).0, es, f)
    decreases |l| - i
  {
    if i < |l| {
      var sched := cfg.remoteSchedule.value;
      var s := UploadStep(cfg, today, anchors, sched, reachable, es, objects, l[i], remotelist);
      assert s.1 && UploadFrom(cfg, today, anchors, reachable, es, objects, l, remotelist, i)
                    == UploadFrom(cfg, today, anchors, reachable, es, s.0, l, remotelist, i + 1) by {
        UploadFromStep(cfg, today, anchors, reachable, es, objects, l, remotelist, i);
      }
      assert HasCopy(s.0, es, f) by {
        assert PlainNames(RelatedFiles(l[i]));
        UploadStepKeepsCopy(cfg, today, anchors, sched, reachable, es, objects, l[i], remotelist, f);
      }
      UploadKeepsCopies(cfg, today, anchors, reachable, es, s.0, l, remotelist, i + 1, f);
    }
  }

  /** After a successful upload loop, every file planned for a local backup that fits
      the remote schedule has a copy of its local size in the bucket. */
  lemma {:induction false} UploadMirrorsFittingBackups(cfg: EntryConfig, today: Date, anchors: Anchors, reachable: bool,
                                                       es: seq<DirEntry>, objects: seq<S3Object>, l: seq<Bakfile>,
                                                       remotelist: Option<seq<Bakfile>>, i: nat)
    requires ValidDate(today) && PlainRecords(l)
    requires cfg.remoteSchedule.Some? && remotelist.Some?
    requires UploadFrom(cfg, today, anchors, reachable, es, objects, l, remotelist, i).1
    ensures var r := UploadFrom(cfg, today, anchors, reachable, es, objects, l, remotelist, i).0;
      forall j, f | i <= j < |l| && !ExpiredUnder(today, cfg.remoteSchedule.value, anchors)(l[j])
                    && f in UploadPlan(l[j], remotelist.value) :: HasCopy(r, es, f)
    decreases |l| - i
  {
    if i < |l| {
      var sched := cfg.remoteSchedule.value;
      var r := UploadFrom(cfg, today, anchors, reachable, es, objects, l, remotelist, i).0;
      var s := UploadStep(cfg, today, anchors, sched, reachable, es, objects, l[i], remotelist);
      assert s.1;
      assert r == UploadFrom(cfg, today, anchors, reachable, es, s.0, l, remotelist, i + 1).0;
      assert PlainNames(RelatedFiles(l[i]));
      UploadStepEffect(cfg, today, anchors, sched, reachable, es, objects, l[i], remotelist);
      UploadMirrorsFittingBackups(cfg, today, anchors, reachable, es, s.0, l, remotelist, i + 1);
      forall j, f | i <= j < |l| && !ExpiredUnder(today, sched, anchors)(l[j]) && f in UploadPlan(l[j], remotelist.value)
        ensures HasCopy(r, es, f)
      {
        if j == i {
          assert HasCopy(s.0, es, f);
          UploadKeepsCopies(cfg, today, anchors, reachable, es, s.0, l, remotelist, i + 1, f);
        }
      }
    }
  }

  /** The upload loop only ever writes objects keyed by related files of the local
      backups: every other object stays, and nothing else appears. */
  lemma {:induction false} UploadTouchesOnlyRelatedFiles(cfg: EntryConfig, today: Date, anchors: Anchors, reachable: bool,
                                                         es: seq<DirEntry>, objects: seq<S3Object>, l: seq<Bakfile>,
                                                         remotelist: Option<seq<Bakfile>>, i: nat)
    requires ValidDate(today) && PlainRecords(l)
    ensures var r := UploadFrom(cfg, today, anchors, reachable, es, objects, l, remotelist, i).0;
      && (forall o | o in objects && (forall j | i <= j < |l| :: o.key !in RelatedFiles(l[j])) :: o in r)
      && (forall o | o in r :: o in objects || exists j | i <= j < |l| :: o.key in RelatedFiles(l[j]))
    decreases |l| - i
  {
    if i < |l| && cfg.remoteSchedule.Some? {
      var s := UploadStep(cfg, today, anchors, cfg.remoteSchedule.value, reachable, es, objects, l[i], remotelist);
      UploadStepEffect(cfg, today, anchors, cfg.remoteSchedule.value, reachable, es, objects, l[i], remotelist);
      forall o | o in objects && o.key !in RelatedFiles(l[i]) ensures o in s.0 {
        var k :| 0 <= k < |objects| && objects[k] == o;
      }
      forall o | o in s.0 ensures o in objects || o.key in RelatedFiles(l[i]) {
        var k :| 0 <= k < |s.0| && s.0[k] == o;
      }
      if s.1 {
        UploadTouchesOnlyRelatedFiles(cfg, today, anchors, reachable, es, s.0, l, remotelist, i + 1);
      }
    }
  }
}
