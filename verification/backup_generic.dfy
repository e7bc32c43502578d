/** The operations every file-producing backup module shares: naming a new backup,
    listing the backups in the local backup directory, deleting one with its
    sidecars, writing its checksum sidecar and setting its ownership and mode.
    The backup directory is a `LocalDir` object whose entries these operations
    read and change. */
module BackupGeneric {

  import opened Wrappers
  import opened Text
  import opened Dates
  import opened Seqs
  import opened Sorting
  import opened Checksums
  import opened Scheduling
  import opened Bakfiles

  datatype FileKind = RegularFile | Directory | OtherFile

  /** Ownership and permission bits of a file. */
  datatype Attrs = Attrs(owner: string, group: string, mode: int)

  /** One entry of the backup directory: its name, size in bytes, modification time
      (seconds), kind and attributes. */
  datatype DirEntry = DirEntry(name: string, size: int, mtime: int, kind: FileKind, attrs: Attrs)

  /** A directory never holds two entries with the same name. */
  predicate UniqueNames(es: seq<DirEntry>)
  {
    forall i, j | 0 <= i < j < |es| :: es[i].name != es[j].name
  }

  /** The entry called `name`, if there is one. */
  function Lookup(es: seq<DirEntry>, name: string): (r: Option<DirEntry>)
    ensures r.Some? ==> r.value in es && r.value.name == name
    ensures r.None? ==> forall k | 0 <= k < |es| :: es[k].name != name
  {
    if es == [] then None
    else if es[0].name == name then Some(es[0])
    else Lookup(es[1..], name)
  }

  /** Ruby's `File.file?`: the name exists and is a regular file. */
  predicate IsRegularFile(es: seq<DirEntry>, name: string)
  {
    Lookup(es, name).Some? && Lookup(es, name).value.kind == RegularFile
  }

  function NamedOtherThan(name: string): DirEntry -> bool
  {
    (e: DirEntry) => e.name != name
  }

  /** The directory without the entry called `name`. */
  function Without(es: seq<DirEntry>, name: string): (r: seq<DirEntry>)
    ensures forall k | 0 <= k < |r| :: r[k] in es && r[k].name != name
    ensures forall k | 0 <= k < |es| && es[k].name != name :: es[k] in r
  {
    Filter(es, NamedOtherThan(name))
  }

  lemma {:induction false} FilterKeepsUniqueNames(es: seq<DirEntry>, p: DirEntry -> bool)
    requires UniqueNames(es)
    ensures UniqueNames(Filter(es, p))
    decreases |es|
  {
    if es != [] {
      var init := es[..|es| - 1];
      assert UniqueNames(init) by {
        forall i, j | 0 <= i < j < |init| ensures init[i].name != init[j].name {
          assert init[i] == es[i] && init[j] == es[j];
        }
      }
      FilterKeepsUniqueNames(init, p);
      var f := Filter(init, p);
      forall k | 0 <= k < |f| ensures f[k].name != es[|es| - 1].name {
        assert f[k] in init;
        var i :| 0 <= i < |init| && init[i] == f[k];
        assert es[i] == f[k];
      }
    }
  }

  /** The directory after creating or replacing the entry `e`. */
  function Put(es: seq<DirEntry>, e: DirEntry): seq<DirEntry>
  {
    Without(es, e.name) + [e]
  }

  /** After `Put`, the name leads to the new entry, and every other entry is unchanged. */
  lemma PutFacts(es: seq<DirEntry>, e: DirEntry)
    ensures Lookup(Put(es, e), e.name) == Some(e)
    ensures forall k | 0 <= k < |es| && es[k].name != e.name :: es[k] in Put(es, e)
    ensures forall k | 0 <= k < |Put(es, e)| :: Put(es, e)[k] == e || (Put(es, e)[k] in es && Put(es, e)[k].name != e.name)
  {
    LookupAbsent(Without(es, e.name), e);
  }

  /** Creating or replacing an entry keeps the names of the directory unique. */
  lemma PutKeepsUniqueNames(es: seq<DirEntry>, e: DirEntry)
    requires UniqueNames(es)
    ensures UniqueNames(Put(es, e))
  {
    FilterKeepsUniqueNames(es, NamedOtherThan(e.name));
  }

  /** In a directory with unique names, looking a name up finds the one entry with it. */
  lemma {:induction false} LookupUnique(es: seq<DirEntry>, e: DirEntry)
    requires UniqueNames(es) && e in es
    ensures Lookup(es, e.name) == Some(e)
    decreases |es|
  {
    if es[0] != e {
      assert e in es[1..];
      var k :| 0 <= k < |es| && es[k] == e;
      assert es[0].name != e.name;
      assert UniqueNames(es[1..]) by {
        forall i, j | 0 <= i < j < |es[1..]| ensures es[1..][i].name != es[1..][j].name {
          assert es[1..][i] == es[i + 1] && es[1..][j] == es[j + 1];
        }
      }
      LookupUnique(es[1..], e);
    }
  }

  lemma {:induction false} LookupAbsent(w: seq<DirEntry>, e: DirEntry)
    requires forall k | 0 <= k < |w| :: w[k].name != e.name
    ensures Lookup(w + [e], e.name) == Some(e)
    decreases |w|
  {
    if w != [] {
      assert (w + [e])[1..] == w[1..] + [e];
      LookupAbsent(w[1..], e);
    }
  }

  // ---------------------------------------------------------------------------
  // Naming

  /** `ModuleBackupGeneric#basename_with_date`: `<bakfile_basename>-<curdate>`, where an
      unset basename interpolates as the empty string. */
  function BasenameWithDate(basename: Option<string>, curdate: string): string
  {
    Interpolate(basename) + "-" + curdate
  }

  /** A backup named from `basename_with_date` with today's `%Y%m%d` text, whatever its
      extension, has today as its creation date, and the local listing's file pattern
      accepts it whenever its extension starts with a dot. */
  lemma BasenameWithDateRoundTrip(basename: Option<string>, d: Date, ext: string)
    requires 0 <= d.year <= 9999 && ValidDate(d)
    ensures DetermineCreationDate(BasenameWithDate(basename, YmdText(d)) + ext, Interpolate(basename)) == Ok(d)
    ensures |ext| > 0 && ext[0] == '.' ==> GlobMatch(BasenameWithDate(basename, YmdText(d)) + ext, Interpolate(basename))
  {
    var bn := Interpolate(basename);
    CreationDateOfDatedName(bn, d, ext);
    if |ext| > 0 && ext[0] == '.' {
      DatedNameMatchesPattern(bn, d, ext);
    }
  }

  lemma DatedNameMatchesPattern(bn: string, d: Date, ext: string)
    requires 0 <= d.year <= 9999 && ValidDate(d) && |ext| > 0 && ext[0] == '.'
    ensures GlobMatch(bn + "-" + YmdText(d) + ext, bn)
  {
    YmdRoundTrip(d);
    var s := bn + "-" + YmdText(d) + ext;
    assert s[..|bn|] == bn;
    assert s[|bn| + 1..|bn| + 9] == YmdText(d);
  }

  // ---------------------------------------------------------------------------
  // Listing

  /** The file pattern of the local listing, `<basename>-` then eight digits then `.`
      and anything, with the basename taken literally. */
  predicate GlobMatch(name: string, bn: string)
  {
    |name| >= |bn| + 10 && name[..|bn|] == bn && name[|bn|] == '-'
    && AllDigits(name[|bn| + 1..|bn| + 9]) && name[|bn| + 9] == '.'
  }

  function IsCandidate(bn: string): DirEntry -> bool
  {
    (e: DirEntry) => GlobMatch(e.name, bn) && !IsChecksumName(e.name)
  }

  /** Entries matching the pattern that are not checksum files, in directory order. */
  function Candidates(es: seq<DirEntry>, bn: string): seq<DirEntry>
  {
    Filter(es, IsCandidate(bn))
  }

  function MtimeLe(a: DirEntry, b: DirEntry): bool
  {
    a.mtime <= b.mtime
  }

  /** The candidates ordered by modification time, oldest first (`sort_by` on `File.mtime`). */
  function SortedCandidates(es: seq<DirEntry>, bn: string): seq<DirEntry>
  {
    InsertionSort(Candidates(es, bn), MtimeLe)
  }

  function SidecarPresent(es: seq<DirEntry>, name: string): string -> bool
  {
    (ext: string) => IsRegularFile(es, SidecarName(name, ext))
  }

  /** The checksum extensions, in `list_extensions` order, whose sidecar of `name` is a
      regular file of the directory. */
  function DetectedSums(es: seq<DirEntry>, name: string): seq<string>
  {
    Filter(ListExtensions, SidecarPresent(es, name))
  }

  /** The record the listing builds for one candidate. */
  function Record(e: DirEntry, bn: string, es: seq<DirEntry>): Result<Bakfile>
  {
    match DetermineCreationDate(e.name, bn)
    case Err(m) => Err(m)
    case Ok(d) => Ok(Bakfile(Some(e.name), Some(d), Some(e.size), DetectedSums(es, e.name)))
  }

  function RecordFn(bn: string, es: seq<DirEntry>): DirEntry -> Result<Bakfile>
  {
    (e: DirEntry) => Record(e, bn, es)
  }

  /** The records of `cs`, in order; the first candidate whose record fails makes the
      whole listing fail. */
  function Records(cs: seq<DirEntry>, bn: string, es: seq<DirEntry>): Result<seq<Bakfile>>
  {
    MapResults(cs, RecordFn(bn, es))
  }

  /** The result of `ModuleBackupGeneric#list` on a directory with entries `es`. */
  function LocalCatalog(es: seq<DirEntry>, bkpdir: Option<string>, basename: Option<string>): Result<seq<Bakfile>>
  {
    if bkpdir.None? then Err("entry has no option 'bakfile_dir'")
    else Records(SortedCandidates(es, Interpolate(basename)), Interpolate(basename), es)
  }

  /** A name the local pattern accepts has the creation date spelled by the eight digits
      right after `<basename>-`. */
  lemma GlobbedNameDate(name: string, bn: string)
    requires GlobMatch(name, bn)
    ensures DetermineCreationDate(name, bn) == ParseYmd(name[|bn| + 1..|bn| + 9])
  {
    assert DatedAt(name, bn + "-", 0) by {
      assert name[..|bn| + 1] == bn + "-";
    }
  }

  /** The candidates in modification-time order: a permutation of the candidates, each
      matching the pattern and none a checksum name. */
  lemma SortedCandidatesFacts(es: seq<DirEntry>, bn: string)
    ensures var cs := SortedCandidates(es, bn);
      && multiset(cs) == multiset(Candidates(es, bn))
      && SortedBy(cs, MtimeLe)
      && forall i | 0 <= i < |cs| :: GlobMatch(cs[i].name, bn) && !IsChecksumName(cs[i].name)
  {
    var cs := SortedCandidates(es, bn);
    InsertionSortSorted(Candidates(es, bn), MtimeLe);
    forall i | 0 <= i < |cs|
      ensures GlobMatch(cs[i].name, bn) && !IsChecksumName(cs[i].name)
    {
      assert cs[i] in multiset(Candidates(es, bn));
      var c := Candidates(es, bn);
      var k :| 0 <= k < |c| && c[k] == cs[i];
      assert IsCandidate(bn)(c[k]);
    }
  }

  /** `r` is the record of directory entry `e`: its name and size, the date spelled by
      the eight digits after `<bn>-`, and exactly the checksum extensions whose sidecar
      is a regular file. */
  ghost predicate IsRecordOf(r: Bakfile, e: DirEntry, bn: string, es: seq<DirEntry>)
    requires GlobMatch(e.name, bn)
  {
    && r.name == Some(e.name) && r.size == Some(e.size)
    && ParseYmd(e.name[|bn| + 1..|bn| + 9]).Ok?
    && r.date == Some(ParseYmd(e.name[|bn| + 1..|bn| + 9]).value)
    && (forall ext :: ext in r.csum <==> ext in ListExtensions && IsRegularFile(es, SidecarName(e.name, ext)))
  }

  lemma RecordContents(e: DirEntry, bn: string, es: seq<DirEntry>)
    requires GlobMatch(e.name, bn) && Record(e, bn, es).Ok?
    ensures IsRecordOf(Record(e, bn, es).value, e, bn, es)
  {
    GlobbedNameDate(e.name, bn);
    forall ext ensures ext in DetectedSums(es, e.name) <==> ext in ListExtensions && IsRegularFile(es, SidecarName(e.name, ext)) {
      DetectedSumsIff(es, e.name, ext);
    }
  }

  /** What `list` returns: it fails without a backup directory; otherwise it holds one
      record per candidate file (a name matching `<basename>-<8 digits>.*` that is not
      a checksum name), ordered by modification time, oldest first; each record has the
      file's name and size, the date spelled in its name, and exactly the checksum
      extensions whose sidecar is a regular file. */
  lemma LocalCatalogContents(es: seq<DirEntry>, bkpdir: Option<string>, basename: Option<string>)
    requires LocalCatalog(es, bkpdir, basename).Ok?
    ensures bkpdir.Some?
    ensures var bn := Interpolate(basename);
      var cs := SortedCandidates(es, bn);
      var rs := LocalCatalog(es, bkpdir, basename).value;
      && multiset(cs) == multiset(Candidates(es, bn))
      && SortedBy(cs, MtimeLe)
      && |rs| == |cs|
      && forall i | 0 <= i < |cs| ::
           && GlobMatch(cs[i].name, bn) && !IsChecksumName(cs[i].name)
           && IsRecordOf(rs[i], cs[i], bn, es)
  {
    var bn := Interpolate(basename);
    var cs := SortedCandidates(es, bn);
    SortedCandidatesFacts(es, bn);
    MapResultsOk(cs, RecordFn(bn, es));
    var rs := LocalCatalog(es, bkpdir, basename).value;
    forall i | 0 <= i < |cs| ensures IsRecordOf(rs[i], cs[i], bn, es) {
      RecordContents(cs[i], bn, es);
    }
  }

  lemma DetectedSumsIff(es: seq<DirEntry>, name: string, ext: string)
    ensures ext in DetectedSums(es, name) <==> ext in ListExtensions && IsRegularFile(es, SidecarName(name, ext))
  {
    var d := DetectedSums(es, name);
    if ext in d {
      var k :| 0 <= k < |d| && d[k] == ext;
      assert SidecarPresent(es, name)(d[k]);
    }
    if ext in ListExtensions && IsRegularFile(es, SidecarName(name, ext)) {
      var i :| 0 <= i < |ListExtensions| && ListExtensions[i] == ext;
      assert SidecarPresent(es, name)(ListExtensions[i]);
    }
  }

  // ---------------------------------------------------------------------------
  // Deleting

  /** `File.delete` succeeds on an existing entry that is not a directory. */
  predicate Deletable(es: seq<DirEntry>, name: string)
  {
    Lookup(es, name).Some? && Lookup(es, name).value.kind != Directory
  }

  /** Deleting `files` in order: the directory afterwards, and whether every deletion
      succeeded. Without a directory path, or at the first file that cannot be deleted,
      the deletion raises and the remaining files are left alone. */
  function DeleteFiles(es: seq<DirEntry>, bkpdir: Option<string>, files: seq<string>): (seq<DirEntry>, bool)
    decreases |files|
  {
    if files == [] then (es, true)
    else if bkpdir.None? || !Deletable(es, files[0]) then (es, false)
    else DeleteFiles(Without(es, files[0]), bkpdir, files[1..])
  }

  /** Deleting files removes entries named in `files` and nothing else; when it succeeds,
      no entry named in `files` is left. */
  lemma DeleteFilesEffect(es: seq<DirEntry>, bkpdir: Option<string>, files: seq<string>)
    ensures var r := DeleteFiles(es, bkpdir, files);
      && (forall k | 0 <= k < |r.0| :: r.0[k] in es)
      && (forall k | 0 <= k < |es| && es[k].name !in files :: es[k] in r.0)
      && (r.1 ==> forall k | 0 <= k < |r.0| :: r.0[k].name !in files)
  {
    DeleteFilesKeepsOnly(es, bkpdir, files);
    DeleteFilesKeepsOthers(es, bkpdir, files);
    DeleteFilesRemovesNamed(es, bkpdir, files);
    var r := DeleteFiles(es, bkpdir, files);
    forall k | 0 <= k < |r.0| ensures r.0[k] in es {
      assert r.0[k] in r.0;
    }
    forall k | 0 <= k < |es| && es[k].name !in files ensures es[k] in r.0 {
      assert es[k] in es;
    }
    if r.1 {
      forall k | 0 <= k < |r.0| ensures r.0[k].name !in files {
        assert r.0[k] in r.0;
      }
    }
  }

  lemma {:induction false} DeleteFilesKeepsOnly(es: seq<DirEntry>, bkpdir: Option<string>, files: seq<string>)
    ensures forall e | e in DeleteFiles(es, bkpdir, files).0 :: e in es
    decreases |files|
  {
    if files != [] && bkpdir.Some? && Deletable(es, files[0]) {
      var w := Without(es, files[0]);
      DeleteFilesKeepsOnly(w, bkpdir, files[1..]);
      WithoutKeepsOnly(es, files[0]);
    }
  }

  lemma {:induction false} DeleteFilesKeepsOthers(es: seq<DirEntry>, bkpdir: Option<string>, files: seq<string>)
    ensures forall e | e in es && e.name !in files :: e in DeleteFiles(es, bkpdir, files).0
    decreases |files|
  {
    if files != [] && bkpdir.Some? && Deletable(es, files[0]) {
      var w := Without(es, files[0]);
      DeleteFilesKeepsOthers(w, bkpdir, files[1..]);
      WithoutKeepsOthers(es, files[0]);
      assert files == [files[0]] + files[1..];
    }
  }

  lemma {:induction false} DeleteFilesRemovesNamed(es: seq<DirEntry>, bkpdir: Option<string>, files: seq<string>)
    ensures DeleteFiles(es, bkpdir, files).1 ==> forall e | e in DeleteFiles(es, bkpdir, files).0 :: e.name !in files
    decreases |files|
  {
    if files != [] && bkpdir.Some? && Deletable(es, files[0]) {
      var w := Without(es, files[0]);
      DeleteFilesRemovesNamed(w, bkpdir, files[1..]);
      DeleteFilesKeepsOnly(w, bkpdir, files[1..]);
      WithoutKeepsOnly(es, files[0]);
      assert files == [files[0]] + files[1..];
    }
  }

  /** What `Without` keeps, stated over elements. */
  lemma WithoutKeepsOnly(es: seq<DirEntry>, name: string)
    ensures forall e | e in Without(es, name) :: e in es && e.name != name
  {
    var w := Without(es, name);
    forall e | e in w ensures e in es && e.name != name {
      var k :| 0 <= k < |w| && w[k] == e;
    }
  }

  lemma WithoutKeepsOthers(es: seq<DirEntry>, name: string)
    ensures forall e | e in es && e.name != name :: e in Without(es, name)
  {
    forall e | e in es && e.name != name ensures e in Without(es, name) {
      var k :| 0 <= k < |es| && es[k] == e;
    }
  }

  /** Deleting distinct files that all exist and are not directories succeeds. */
  lemma {:induction false} DeleteFilesSucceeds(es: seq<DirEntry>, bkpdir: Option<string>, files: seq<string>)
    requires bkpdir.Some? && UniqueNames(es)
    requires forall i, j | 0 <= i < j < |files| :: files[i] != files[j]
    requires forall i | 0 <= i < |files| :: Deletable(es, files[i])
    ensures DeleteFiles(es, bkpdir, files).1
    decreases |files|
  {
    if files != [] {
      var w := Without(es, files[0]);
      FilterKeepsUniqueNames(es, NamedOtherThan(files[0]));
      forall i | 0 <= i < |files[1..]| ensures Deletable(w, files[1..][i]) {
        var f := files[i + 1];
        assert f != files[0];
        var e := Lookup(es, f).value;
        var k :| 0 <= k < |es| && es[k] == e;
        assert e in w;
        LookupUnique(w, e);
      }
      DeleteFilesSucceeds(w, bkpdir, files[1..]);
    }
  }

  // ---------------------------------------------------------------------------
  // Checksum sidecar

  /** `ModuleBackupGeneric#mkcsum`: `Checksum.create` with the default checksum type in
      the backup directory. The digest of the backup's contents is `digest`; the backup
      must be a regular file to be read. A sidecar that already exists as a regular
      file is overwritten and keeps its attributes; a new one gets `newAttrs`. */
  function MkCsumEffect(es: seq<DirEntry>, bkpdir: Option<string>, filename: string, digest: string, now: int, newAttrs: Attrs)
    : (seq<DirEntry>, Result<string>)
  {
    if bkpdir.None? then (es, Err("no implicit conversion of nil into String"))
    else
      var readable := if IsRegularFile(es, filename) then Some(digest) else None;
      match CreateChecksum(filename, DefaultSumType, readable)
      case Err(m) => (es, Err(m))
      case Ok(sc) =>
        var prev := Lookup(es, sc.name);
        if prev.Some? && prev.value.kind == Directory then (es, Err("Is a directory"))
        else
          var attrs := if prev.Some? then prev.value.attrs else newAttrs;
          (Put(es, DirEntry(sc.name, |sc.content|, now, RegularFile, attrs)), Ok(sc.name))
  }

  /** A successful `mkcsum` returns `<file>.sha256`, which the listers recognise as a
      checksum name, and leaves it as a regular file holding the one sidecar line. */
  lemma MkCsumResult(es: seq<DirEntry>, bkpdir: Option<string>, filename: string, digest: string, now: int, newAttrs: Attrs)
    requires MkCsumEffect(es, bkpdir, filename, digest, now, newAttrs).1.Ok?
    ensures var (after, r) := MkCsumEffect(es, bkpdir, filename, digest, now, newAttrs);
      && r.value == SidecarName(filename, DefaultSumType)
      && IsChecksumName(r.value)
      && IsRegularFile(after, r.value)
      && Lookup(after, r.value).value.size == |digest + "  " + filename + "\n"|
      && (forall k | 0 <= k < |es| && es[k].name != r.value :: es[k] in after)
  {
    CreatedSidecarIsChecksum(filename, DefaultSumType, Some(digest));
    var sc := CreateChecksum(filename, DefaultSumType, Some(digest)).value;
    var prev := Lookup(es, sc.name);
    var attrs := if prev.Some? then prev.value.attrs else newAttrs;
    PutFacts(es, DirEntry(sc.name, |sc.content|, now, RegularFile, attrs));
  }

  // ---------------------------------------------------------------------------
  // Ownership and mode

  datatype PermChange = Chown(owner: Option<string>, group: Option<string>, file: string) | Chmod(mode: int, file: string)

  /** Which kinds of change the system refuses (`Errno::EPERM`, `Errno::EROFS`): a
      change of ownership, a change of mode. */
  datatype Refusals = Refusals(chown: bool, chmod: bool)

  /** The changes `setperm` makes: owner and group of both files when either is
      configured, then the mode of both files when it is configured; nothing unless
      both the backup file and its sidecar exist. */
  function PermPlan(bkpfile: Option<string>, sumfile: Option<string>, owner: Option<string>, group: Option<string>, mode: Option<int>)
    : seq<PermChange>
  {
    (if (owner.Some? || group.Some?) && bkpfile.Some? && sumfile.Some?
     then [Chown(owner, group, bkpfile.value), Chown(owner, group, sumfile.value)] else [])
    + (if mode.Some? && bkpfile.Some? && sumfile.Some?
       then [Chmod(mode.value, bkpfile.value), Chmod(mode.value, sumfile.value)] else [])
  }

  /** The plan changes only the backup file and its sidecar, changes ownership only when
      an owner or group is configured, changes the mode only when one is configured, and
      is empty unless both files are named. */
  lemma PermPlanShape(bkpfile: Option<string>, sumfile: Option<string>, owner: Option<string>, group: Option<string>, mode: Option<int>)
    ensures var plan := PermPlan(bkpfile, sumfile, owner, group, mode);
      && (plan != [] ==> bkpfile.Some? && sumfile.Some?)
      && (forall c | c in plan :: c.file == bkpfile.value || c.file == sumfile.value)
      && ((exists c | c in plan :: c.Chown?) <==> (owner.Some? || group.Some?) && bkpfile.Some? && sumfile.Some?)
      && ((exists c | c in plan :: c.Chmod?) <==> mode.Some? && bkpfile.Some? && sumfile.Some?)
      && (forall c | c in plan && c.Chmod? :: c.mode == mode.value)
  {
    var plan := PermPlan(bkpfile, sumfile, owner, group, mode);
    if (owner.Some? || group.Some?) && bkpfile.Some? && sumfile.Some? {
      assert plan[0].Chown?;
    }
    if mode.Some? && bkpfile.Some? && sumfile.Some? {
      assert plan[|plan| - 1].Chmod?;
    }
  }

  /** One change applied to the directory; `None` when it raises: the target is missing,
      or the system refuses that kind of change (`refused`). An unset owner or group is
      left as it is. */
  function ApplyChange(es: seq<DirEntry>, c: PermChange, refused: Refusals): Option<seq<DirEntry>>
  {
    var target := Lookup(es, c.file);
    if target.None? then None
    else
      var e := target.value;
      match c
      case Chown(o, g, _) =>
        if refused.chown then None
        else
          var a := Attrs(if o.Some? then o.value else e.attrs.owner, if g.Some? then g.value else e.attrs.group, e.attrs.mode);
          Some(Put(es, e.(attrs := a)))
      case Chmod(m, _) =>
        if refused.chmod then None
        else Some(Put(es, e.(attrs := e.attrs.(mode := m))))
  }

  /** A change raises exactly when its file is missing or its kind is refused;
      otherwise the file afterwards carries the new mode, or the configured owner and
      group. */
  lemma ApplyChangeFacts(es: seq<DirEntry>, c: PermChange, refused: Refusals)
    ensures var r := ApplyChange(es, c, refused);
      && (r.None? <==> Lookup(es, c.file).None? || (c.Chown? && refused.chown) || (c.Chmod? && refused.chmod))
      && (r.Some? && c.Chmod? ==> exists e | e in r.value :: e.name == c.file && e.attrs.mode == c.mode)
      && (r.Some? && c.Chown? ==>
            exists e | e in r.value :: (e.name == c.file && (c.owner.Some? ==> e.attrs.owner == c.owner.value)
                                         && (c.group.Some? ==> e.attrs.group == c.group.value)))
  {
    var target := Lookup(es, c.file);
    if target.Some? {
      var e := target.value;
      match c
      case Chown(o, g, f) =>
        if !refused.chown {
          var e1 := e.(attrs := Attrs(if o.Some? then o.value else e.attrs.owner, if g.Some? then g.value else e.attrs.group, e.attrs.mode));
          PutFacts(es, e1);
        }
      case Chmod(m, f) =>
        if !refused.chmod {
          PutFacts(es, e.(attrs := e.attrs.(mode := m)));
        }
    }
  }

  /** One change of `setperm`: it raises without a backup directory path. */
  function Step(es: seq<DirEntry>, bkpdir: Option<string>, c: PermChange, refused: Refusals): (seq<DirEntry>, bool)
  {
    if bkpdir.None? then (es, false)
    else
      match ApplyChange(es, c, refused)
      case None => (es, false)
      case Some(es1) => (es1, true)
  }

  /** The changes applied in order, stopping at the first that raises. */
  function ApplyChanges(es: seq<DirEntry>, bkpdir: Option<string>, plan: seq<PermChange>, refused: Refusals): (seq<DirEntry>, bool)
    decreases |plan|
  {
    if plan == [] then (es, true)
    else
      var r := Step(es, bkpdir, plan[0], refused);
      if !r.1 then r else ApplyChanges(r.0, bkpdir, plan[1..], refused)
  }

  /** Applying two plans one after the other is applying their concatenation. */
  lemma {:induction false} ApplyChangesAppend(es: seq<DirEntry>, bkpdir: Option<string>, p1: seq<PermChange>, p2: seq<PermChange>, refused: Refusals)
    ensures var r1 := ApplyChanges(es, bkpdir, p1, refused);
      ApplyChanges(es, bkpdir, p1 + p2, refused) == if r1.1 then ApplyChanges(r1.0, bkpdir, p2, refused) else r1
    decreases |p1|
  {
    if p1 != [] {
      assert (p1 + p2)[0] == p1[0] && (p1 + p2)[1..] == p1[1..] + p2;
      var r := Step(es, bkpdir, p1[0], refused);
      if r.1 {
        ApplyChangesAppend(r.0, bkpdir, p1[1..], p2, refused);
      }
    } else {
      assert p1 + p2 == p2;
    }
  }

  // ---------------------------------------------------------------------------
  // The backup directory

  class LocalDir {
    var entries: seq<DirEntry>

    constructor (entries: seq<DirEntry>)
      ensures this.entries == entries
    {
      this.entries := entries;
    }

    /** The sidecar scan of `list`: each extension of `list_extensions` whose sidecar
        of `name` is a regular file, in order. */
    method DetectSums(name: string) returns (csum: seq<string>)
      ensures csum == DetectedSums(entries, name)
    {
      var es := entries;
      csum := [];
      var j := 0;
      while j < |ListExtensions|
        invariant 0 <= j <= |ListExtensions|
        invariant csum == Filter(ListExtensions[..j], SidecarPresent(es, name))
      {
        FilterPrefixStep(ListExtensions, j, SidecarPresent(es, name));
        if IsRegularFile(es, SidecarName(name, ListExtensions[j])) {
          csum := csum + [ListExtensions[j]];
        }
        j := j + 1;
      }
      assert ListExtensions[..j] == ListExtensions;
    }

    /** The record `list` builds for one candidate file. */
    method ListRecord(e: DirEntry, bn: string) returns (r: Result<Bakfile>)
      ensures r == RecordFn(bn, entries)(e)
    {
      var date := DetermineCreationDate(e.name, bn);
      if date.Err? {
        return Err(date.reason);
      }
      var csum := DetectSums(e.name);
      return Ok(Bakfile(Some(e.name), Some(date.value), Some(e.size), csum));
    }

    /** `ModuleBackupGeneric#list`. */
    method List(bkpdir: Option<string>, basename: Option<string>) returns (r: Result<seq<Bakfile>>)
      ensures r == LocalCatalog(entries, bkpdir, basename)
    {
      if bkpdir.None? {
        return Err("entry has no option 'bakfile_dir'");
      }
      var bn := Interpolate(basename);
      var sorted := SortedCandidates(entries, bn);
      ghost var f := RecordFn(bn, entries);
      var results: seq<Bakfile> := [];
      var i := 0;
      while i < |sorted|
        invariant 0 <= i <= |sorted|
        invariant MapResults(sorted[..i], f) == Ok(results)
      {
        var rec := ListRecord(sorted[i], bn);
        MapResultsStep(sorted, i, f);
        if rec.Err? {
          MapResultsFailurePersists(sorted, i + 1, f);
          return Err(rec.reason);
        }
        results := results + [rec.value];
        i := i + 1;
      }
      assert sorted[..i] == sorted;
      return Ok(results);
    }

    /** `ModuleBackupGeneric#delete`: deletes every related file of the backup, in order,
        and raises at the first that cannot be deleted. */
    method Delete(bkpdir: Option<string>, b: Bakfile) returns (ok: bool)
      modifies this
      ensures (entries, ok) == DeleteFiles(old(entries), bkpdir, RelatedFiles(b))
    {
      var files := ListAllRelatedFiles(b);
      var i := 0;
      while i < |files|
        invariant 0 <= i <= |files|
        invariant DeleteFiles(entries, bkpdir, files[i..]) == DeleteFiles(old(entries), bkpdir, files)
      {
        if bkpdir.None? || !Deletable(entries, files[i]) {
          return false;
        }
        assert files[i..][1..] == files[i + 1..];
        entries := Without(entries, files[i]);
        i := i + 1;
      }
      return true;
    }

    /** `ModuleBackupGeneric#mkcsum`. */
    method MkCsum(bkpdir: Option<string>, filename: string, digest: string, now: int, newAttrs: Attrs) returns (r: Result<string>)
      modifies this
      ensures (entries, r) == MkCsumEffect(old(entries), bkpdir, filename, digest, now, newAttrs)
    {
      if bkpdir.None? {
        return Err("no implicit conversion of nil into String");
      }
      var readable := if IsRegularFile(entries, filename) then Some(digest) else None;
      var sc := CreateChecksum(filename, DefaultSumType, readable);
      if sc.Err? {
        return Err(sc.reason);
      }
      var existing := Lookup(entries, sc.value.name);
      if existing.Some? && existing.value.kind == Directory {
        return Err("Is a directory");
      }
      var attrs := if existing.Some? then existing.value.attrs else newAttrs;
      entries := Put(entries, DirEntry(sc.value.name, |sc.value.content|, now, RegularFile, attrs));
      return Ok(sc.value.name);
    }

    method Change(bkpdir: Option<string>, c: PermChange, refused: Refusals) returns (ok: bool)
      modifies this
      ensures (entries, ok) == Step(old(entries), bkpdir, c, refused)
    {
      if bkpdir.None? {
        return false;
      }
      var next := ApplyChange(entries, c, refused);
      if next.None? {
        return false;
      }
      entries := next.value;
      return true;
    }

    /** The two changes of one block of `setperm`, the second only if the first did not
        raise. */
    method ChangeBoth(bkpdir: Option<string>, c1: PermChange, c2: PermChange, refused: Refusals) returns (ok: bool)
      modifies this
      ensures (entries, ok) == ApplyChanges(old(entries), bkpdir, [c1, c2], refused)
    {
      assert [c1, c2][0] == c1 && [c1, c2][1..] == [c2] && [c2][1..] == [];
      ok := Change(bkpdir, c1, refused);
      if ok {
        ghost var mid := entries;
        ok := Change(bkpdir, c2, refused);
        assert ApplyChanges(mid, bkpdir, [c2], refused) == Step(mid, bkpdir, c2, refused);
      }
    }

    /** `ModuleBackupGeneric#setperm`. */
    method SetPerm(bkpdir: Option<string>, bkpfile: Option<string>, sumfile: Option<string>,
                   owner: Option<string>, group: Option<string>, mode: Option<int>, refused: Refusals)
      returns (ok: bool)
      modifies this
      ensures (entries, ok) == ApplyChanges(old(entries), bkpdir, PermPlan(bkpfile, sumfile, owner, group, mode), refused)
    {
      ghost var chowns := if (owner.Some? || group.Some?) && bkpfile.Some? && sumfile.Some?
        then [Chown(owner, group, bkpfile.value), Chown(owner, group, sumfile.value)] else [];
      ghost var chmods := if mode.Some? && bkpfile.Some? && sumfile.Some?
        then [Chmod(mode.value, bkpfile.value), Chmod(mode.value, sumfile.value)] else [];
      ApplyChangesAppend(entries, bkpdir, chowns, chmods, refused);
      ok := true;
      if (owner.Some? || group.Some?) && bkpfile.Some? && sumfile.Some? {
        ok := ChangeBoth(bkpdir, Chown(owner, group, bkpfile.value), Chown(owner, group, sumfile.value), refused);
        if !ok {
          return;
        }
      }
      if mode.Some? && bkpfile.Some? && sumfile.Some? {
        ok := ChangeBoth(bkpdir, Chmod(mode.value, bkpfile.value), Chmod(mode.value, sumfile.value), refused);
      }
    }
  }
}
