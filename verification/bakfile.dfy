/** The record of one existing backup, found either in the local backup directory
    or in remote storage: the main file name, its creation date and size, and the
    extensions of the checksum sidecars found beside it. Ruby's `nil` fields are
    `None`. */
module Bakfiles {

  import opened Wrappers
  import opened Text
  import opened Dates
  import opened Sorting
  import opened Checksums
  import Scheduling

  datatype Bakfile = Bakfile(name: Option<string>, date: Option<Date>, size: Option<int>, csum: seq<string>)

  /** `Bakfile.new`: no name, date or size yet, and no checksum extensions. */
  function NewBakfile(): (b: Bakfile)
    ensures b.name.None? && b.date.None? && b.size.None?
    ensures b.csum == []
  {
    Bakfile(None, None, None, [])
  }

  /** `Bakfile#age`: the number of days between the backup date and today, as a
      difference of Modified Julian Day numbers. A record without a date raises. */
  function Age(b: Bakfile, today: Date): (r: Result<int>)
    requires ValidDate(today)
    requires b.date.Some? ==> ValidDate(b.date.value)
    ensures r.Ok? <==> b.date.Some?
    ensures r.Ok? ==> r.value == Scheduling.DaysOld(b.date.value, today)
  {
    match b.date
    case None => Err("undefined method 'mjd' for nil")
    case Some(d) => Ok(Mjd(today) - Mjd(d))
  }

  /** A backup dated today has age 0. */
  lemma AgeOfToday(b: Bakfile, today: Date)
    requires ValidDate(today) && b.date == Some(today)
    ensures Age(b, today) == Ok(0)
  {
  }

  /** The sidecar names of backup `name` for each extension of `exts`, in order. */
  function SidecarNames(name: string, exts: seq<string>): (r: seq<string>)
    ensures |r| == |exts|
    ensures forall i | 0 <= i < |exts| :: r[i] == SidecarName(name, exts[i])
  {
    if exts == [] then []
    else SidecarNames(name, exts[..|exts| - 1]) + [SidecarName(name, exts[|exts| - 1])]
  }

  /** The files that make up a backup: the main file, then its sidecars. */
  function RelatedFiles(b: Bakfile): seq<string>
  {
    if b.name.None? then [] else [b.name.value] + SidecarNames(b.name.value, b.csum)
  }

  /** `Bakfile#list_all_related_files`: nothing for a record without a name; otherwise
      the main file name followed by `<name>.<ext>` for each checksum extension, in the
      order of `csum`. */
  method ListAllRelatedFiles(b: Bakfile) returns (results: seq<string>)
    ensures results == RelatedFiles(b)
    ensures b.name.None? ==> results == []
    ensures b.name.Some? ==> |results| == 1 + |b.csum| && results[0] == b.name.value
    ensures b.name.Some? ==> forall i | 0 <= i < |b.csum| :: results[i + 1] == SidecarName(b.name.value, b.csum[i])
  {
    results := [];
    if b.name.None? {
      return;
    }
    var name := b.name.value;
    results := results + [name];
    var i := 0;
    while i < |b.csum|
      invariant 0 <= i <= |b.csum|
      invariant results == [name] + SidecarNames(name, b.csum[..i])
    {
      assert b.csum[..i + 1][..i] == b.csum[..i];
      results := results + [SidecarName(name, b.csum[i])];
      i := i + 1;
    }
    assert b.csum[..i] == b.csum;
  }

  /** Every file of a named backup other than the main file is a sidecar of a
      checksum extension it records. */
  lemma RelatedFilesAreMainOrSidecar(b: Bakfile, f: string)
    requires f in RelatedFiles(b)
    ensures b.name.Some?
    ensures f == b.name.value || exists k | 0 <= k < |b.csum| :: f == SidecarName(b.name.value, b.csum[k])
  {
    var r := RelatedFiles(b);
    var i :| 0 <= i < |r| && r[i] == f;
    if i > 0 {
      assert f == SidecarName(b.name.value, b.csum[i - 1]);
    }
  }

  /** Code-point order on strings is a total order. */
  lemma StrLeIsTotalOrder()
    ensures IsTotalPreorder(StrLe) && IsAntisymmetric(StrLe)
  {
    forall a: string, b: string ensures StrLe(a, b) || StrLe(b, a) {
      StrLeTotal(a, b);
    }
    forall a: string, b: string, c: string | StrLe(a, b) && StrLe(b, c) ensures StrLe(a, c) {
      StrLeTransitive(a, b, c);
    }
    forall a: string, b: string | StrLe(a, b) && StrLe(b, a) ensures a == b {
      StrLeAntisymmetric(a, b);
    }
  }

  /** `Bakfile#sumlist`: the checksum extensions, sorted, joined with commas. */
  function SumList(b: Bakfile): string
  {
    Join(InsertionSort(b.csum, StrLe), ",")
  }

  /** A backup without sidecars has the empty signature. */
  lemma SumListOfNoSidecars(b: Bakfile)
    requires b.csum == []
    ensures SumList(b) == ""
  {
  }

  /** The signature does not depend on the order in which the extensions were found. */
  lemma SumListIgnoresOrder(a: Bakfile, b: Bakfile)
    requires multiset(a.csum) == multiset(b.csum)
    ensures SumList(a) == SumList(b)
  {
    StrLeIsTotalOrder();
    SortIgnoresOrder(a.csum, b.csum, StrLe);
  }

  /** Extensions that are non-empty and free of commas, as all checksum extensions are. */
  predicate PlainExtensions(exts: seq<string>)
  {
    forall i | 0 <= i < |exts| :: exts[i] != "" && ',' !in exts[i]
  }

  lemma {:induction false} SplitJoin(parts: seq<string>)
    requires parts != [] && PlainExtensions(parts)
    ensures SplitOn(Join(parts, ","), ',') == parts
    decreases |parts|
  {
    if |parts| == 1 {
      SplitOnFree(parts[0], ',');
    } else {
      SplitJoin(parts[1..]);
      SplitOnAt(parts[0], Join(parts[1..], ","), ',');
      assert parts[0] + "," + Join(parts[1..], ",") == parts[0] + [','] + Join(parts[1..], ",");
      assert parts == [parts[0]] + parts[1..];
    }
  }

  lemma JoinEmptyOnlyForNoParts(parts: seq<string>)
    requires PlainExtensions(parts)
    ensures Join(parts, ",") == "" <==> parts == []
  {
    if parts != [] {
      assert |Join(parts, ",")| >= |parts[0]| > 0;
    }
  }

  lemma PlainAfterSort(exts: seq<string>)
    requires PlainExtensions(exts)
    ensures PlainExtensions(InsertionSort(exts, StrLe))
  {
    var s := InsertionSort(exts, StrLe);
    forall i | 0 <= i < |s| ensures s[i] != "" && ',' !in s[i] {
      assert s[i] in multiset(exts);
      var j :| 0 <= j < |exts| && exts[j] == s[i];
    }
  }

  /** Two backups carry the same signature exactly when they carry the same checksum
      extensions, counted with repetition: the signature is an order-insensitive
      fingerprint of the sidecar set. */
  lemma SumListEqualIff(a: Bakfile, b: Bakfile)
    requires PlainExtensions(a.csum) && PlainExtensions(b.csum)
    ensures SumList(a) == SumList(b) <==> multiset(a.csum) == multiset(b.csum)
  {
    if multiset(a.csum) == multiset(b.csum) {
      SumListIgnoresOrder(a, b);
    }
    if SumList(a) == SumList(b) {
      var sa, sb := InsertionSort(a.csum, StrLe), InsertionSort(b.csum, StrLe);
      PlainAfterSort(a.csum);
      PlainAfterSort(b.csum);
      JoinEmptyOnlyForNoParts(sa);
      JoinEmptyOnlyForNoParts(sb);
      if sa != [] && sb != [] {
        SplitJoin(sa);
        SplitJoin(sb);
      }
      assert sa == sb;
    }
  }
}
