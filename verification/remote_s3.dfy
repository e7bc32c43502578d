/** Remote storage in an S3 bucket: the catalog of remote backups built from one
    object listing, the upload of a local file under its base name, and the deletion
    of one key. The bucket is a `Bucket` object; whether the service can be reached
    with the configured region and credentials is its `reachable` field. */
module RemoteS3 {

  import opened Wrappers
  import opened Text
  import opened Dates
  import opened Seqs
  import opened Sorting
  import opened Checksums
  import opened Scheduling
  import opened Bakfiles

  /** One object of the bucket: its key and its size in bytes. */
  datatype S3Object = S3Object(key: string, size: int)

  /** The most keys one `list_objects` call returns. */
  const MaxKeys: nat := 1000

  const Unreachable: string := "unable to reach the S3 bucket"

  function KeyLe(a: S3Object, b: S3Object): bool
  {
    StrLe(a.key, b.key)
  }

  /** `list_objects` without a continuation token: the first `MaxKeys` objects in key
      order. */
  function Listing(objects: seq<S3Object>): seq<S3Object>
  {
    var sorted := InsertionSort(objects, KeyLe);
    if |sorted| <= MaxKeys then sorted else sorted[..MaxKeys]
  }

  lemma KeyLeIsTotalPreorder()
    ensures IsTotalPreorder(KeyLe)
  {
    forall a: S3Object, b: S3Object ensures KeyLe(a, b) || KeyLe(b, a) {
      StrLeTotal(a.key, b.key);
    }
    forall a: S3Object, b: S3Object, c: S3Object | KeyLe(a, b) && KeyLe(b, c) ensures KeyLe(a, c) {
      StrLeTransitive(a.key, b.key, c.key);
    }
  }

  /** The listing is in key order, holds at most `MaxKeys` objects, all from the bucket,
      and is the whole bucket when the bucket holds no more than `MaxKeys` objects. */
  lemma ListingFacts(objects: seq<S3Object>)
    ensures var l := Listing(objects);
      && SortedBy(l, KeyLe)
      && |l| == (if |objects| <= MaxKeys then |objects| else MaxKeys)
      && multiset(l) <= multiset(objects)
      && (|objects| <= MaxKeys ==> multiset(l) == multiset(objects))
  {
    var sorted := InsertionSort(objects, KeyLe);
    KeyLeIsTotalPreorder();
    InsertionSortSorted(objects, KeyLe);
    if |sorted| > MaxKeys {
      assert sorted == sorted[..MaxKeys] + sorted[MaxKeys..];
      assert multiset(sorted) == multiset(sorted[..MaxKeys]) + multiset(sorted[MaxKeys..]);
    }
  }

  // ---------------------------------------------------------------------------
  // Listing

  /** The selection of `list`: the key holds `<basename>-` and eight digits somewhere
      (the pattern is not anchored) and is not a checksum name. */
  function IsRemoteCandidate(bn: string): S3Object -> bool
  {
    (o: S3Object) => FindDated(o.key, bn + "-", 0).Some? && !IsChecksumName(o.key)
  }

  function CoreObjects(listing: seq<S3Object>, bn: string): seq<S3Object>
  {
    Filter(listing, IsRemoteCandidate(bn))
  }

  function KeyIs(key: string): S3Object -> bool
  {
    (o: S3Object) => o.key == key
  }

  /** The objects of the listing whose key is exactly `key`. */
  function WithKey(listing: seq<S3Object>, key: string): seq<S3Object>
  {
    Filter(listing, KeyIs(key))
  }

  function SidecarUnique(listing: seq<S3Object>, name: string): string -> bool
  {
    (ext: string) => |WithKey(listing, SidecarName(name, ext))| == 1
  }

  /** The checksum extensions, in `list_extensions` order, whose sidecar key occurs
      exactly once in the listing. */
  function RemoteSums(listing: seq<S3Object>, name: string): seq<string>
  {
    Filter(ListExtensions, SidecarUnique(listing, name))
  }

  /** The record `list` builds for one selected object. */
  function RemoteRecord(o: S3Object, bn: string, listing: seq<S3Object>): Result<Bakfile>
  {
    match DetermineCreationDate(o.key, bn)
    case Err(m) => Err(m)
    case Ok(d) => Ok(Bakfile(Some(o.key), Some(d), Some(o.size), RemoteSums(listing, o.key)))
  }

  function RemoteRecordFn(bn: string, listing: seq<S3Object>): S3Object -> Result<Bakfile>
  {
    (o: S3Object) => RemoteRecord(o, bn, listing)
  }

  /** `ModuleRemoteAwsS3#list` on a reachable bucket holding `objects`. */
  function RemoteCatalog(objects: seq<S3Object>, basename: Option<string>): Result<seq<Bakfile>>
  {
    var listing := Listing(objects);
    var bn := Interpolate(basename);
    MapResults(CoreObjects(listing, bn), RemoteRecordFn(bn, listing))
  }

  /** `r` is the record of the listed object `o`: its key and size, its creation date and
      exactly the extensions whose sidecar key occurs once in the listing. */
  ghost predicate IsRemoteRecordOf(r: Bakfile, o: S3Object, bn: string, listing: seq<S3Object>)
  {
    && r.name == Some(o.key) && r.size == Some(o.size)
    && DetermineCreationDate(o.key, bn).Ok? && r.date == Some(DetermineCreationDate(o.key, bn).value)
    && (forall ext :: ext in r.csum <==> ext in ListExtensions && |WithKey(listing, SidecarName(o.key, ext))| == 1)
  }

  lemma RemoteSumsIff(listing: seq<S3Object>, name: string, ext: string)
    ensures ext in RemoteSums(listing, name) <==> ext in ListExtensions && |WithKey(listing, SidecarName(name, ext))| == 1
  {
    var d := RemoteSums(listing, name);
    if ext in d {
      var k :| 0 <= k < |d| && d[k] == ext;
      assert SidecarUnique(listing, name)(d[k]);
    }
    if ext in ListExtensions && |WithKey(listing, SidecarName(name, ext))| == 1 {
      var i :| 0 <= i < |ListExtensions| && ListExtensions[i] == ext;
      assert SidecarUnique(listing, name)(ListExtensions[i]);
    }
  }

  /** The selection keeps exactly the listed objects whose key holds `<basename>-` and
      eight digits somewhere (the pattern is not anchored) and is not a checksum name,
      in listing order. */
  lemma CoreObjectsFacts(listing: seq<S3Object>, bn: string)
    ensures var core := CoreObjects(listing, bn);
      && (forall i | 0 <= i < |core| ::
            core[i] in listing && FindDated(core[i].key, bn + "-", 0).Some? && !IsChecksumName(core[i].key))
      && (forall i | 0 <= i < |listing| && FindDated(listing[i].key, bn + "-", 0).Some? && !IsChecksumName(listing[i].key) ::
            listing[i] in core)
  {
    var core := CoreObjects(listing, bn);
    forall i | 0 <= i < |core|
      ensures FindDated(core[i].key, bn + "-", 0).Some? && !IsChecksumName(core[i].key)
    {
      assert IsRemoteCandidate(bn)(core[i]);
    }
    forall i | 0 <= i < |listing| && FindDated(listing[i].key, bn + "-", 0).Some? && !IsChecksumName(listing[i].key)
      ensures listing[i] in core
    {
      assert IsRemoteCandidate(bn)(listing[i]);
    }
  }

  /** `list` fails exactly when some selected key spells an invalid date. */
  lemma RemoteCatalogFailure(objects: seq<S3Object>, basename: Option<string>)
    ensures var core := CoreObjects(Listing(objects), Interpolate(basename));
      RemoteCatalog(objects, basename).Err? <==>
        exists i | 0 <= i < |core| :: DetermineCreationDate(core[i].key, Interpolate(basename)).Err?
  {
    var listing := Listing(objects);
    var bn := Interpolate(basename);
    var core := CoreObjects(listing, bn);
    var f := RemoteRecordFn(bn, listing);
    MapResultsErrIff(core, f);
    forall i | 0 <= i < |core| ensures f(core[i]).Err? <==> DetermineCreationDate(core[i].key, bn).Err? {
    }
  }

  /** What a successful `list` returns: one record per selected object, in listing order,
      each with the object's key and size, the date its key spells, and exactly the
      extensions whose sidecar key occurs once in the listing. */
  lemma RemoteCatalogContents(objects: seq<S3Object>, basename: Option<string>)
    requires RemoteCatalog(objects, basename).Ok?
    ensures var listing := Listing(objects);
      var core := CoreObjects(listing, Interpolate(basename));
      var rs := RemoteCatalog(objects, basename).value;
      && |rs| == |core|
      && forall i | 0 <= i < |core| :: IsRemoteRecordOf(rs[i], core[i], Interpolate(basename), listing)
  {
    var listing := Listing(objects);
    var bn := Interpolate(basename);
    var core := CoreObjects(listing, bn);
    var f := RemoteRecordFn(bn, listing);
    MapResultsOk(core, f);
    var rs := RemoteCatalog(objects, basename).value;
    forall i | 0 <= i < |core| ensures IsRemoteRecordOf(rs[i], core[i], bn, listing) {
      assert rs[i] == RemoteRecord(core[i], bn, listing).value;
      forall ext ensures ext in RemoteSums(listing, core[i].key) <==>
                         ext in ListExtensions && |WithKey(listing, SidecarName(core[i].key, ext))| == 1 {
        RemoteSumsIff(listing, core[i].key, ext);
      }
    }
  }

  /** A key that starts with `<basename>-` and a date, whatever follows, is listed with
      that date as long as the listing holds it and it is not a checksum name. */
  lemma DatedKeyIsCatalogued(objects: seq<S3Object>, basename: Option<string>, k: int)
    requires 0 <= k < |Listing(objects)|
    requires !IsChecksumName(Listing(objects)[k].key)
    requires var bn := Interpolate(basename);
      exists d: Date, rest: string | 0 <= d.year <= 9999 && ValidDate(d) ::
        Listing(objects)[k].key == bn + "-" + YmdText(d) + rest
    ensures Listing(objects)[k] in CoreObjects(Listing(objects), Interpolate(basename))
  {
    var bn := Interpolate(basename);
    var key := Listing(objects)[k].key;
    var d: Date, rest: string :| 0 <= d.year <= 9999 && ValidDate(d) && key == bn + "-" + YmdText(d) + rest;
    CreationDateOfDatedName(bn, d, rest);
    CoreObjectsFacts(Listing(objects), bn);
  }

  // ---------------------------------------------------------------------------
  // Paths and keys

  function StripTrailingSlashes(p: string): (r: string)
    ensures |r| <= |p|
    ensures |r| > 0 ==> r[|r| - 1] != '/'
    ensures r == p[..|r|]
  {
    if |p| > 0 && p[|p| - 1] == '/' then StripTrailingSlashes(p[..|p| - 1]) else p
  }

  function AfterLastSlash(p: string): (r: string)
    ensures '/' !in r
  {
    if p == [] || p[|p| - 1] == '/' then [] else AfterLastSlash(p[..|p| - 1]) + [p[|p| - 1]]
  }

  /** `File.basename`: the last component of the path, ignoring trailing separators; a
      path of separators only has base name `/`. */
  function FileBasename(p: string): string
  {
    var q := StripTrailingSlashes(p);
    if q == [] then (if p == [] then "" else "/") else AfterLastSlash(q)
  }

  lemma {:induction false} AfterLastSlashOfSuffix(dir: string, name: string)
    requires '/' !in name
    requires |dir| > 0 && dir[|dir| - 1] == '/'
    ensures AfterLastSlash(dir + name) == name
    decreases |name|
  {
    if name == [] {
      assert dir + name == dir;
    } else {
      var init := name[..|name| - 1];
      assert (dir + name)[..|dir + name| - 1] == dir + init;
      AfterLastSlashOfSuffix(dir, init);
      assert init + [name[|name| - 1]] == name;
    }
  }

  /** The object key `send` uses for the file it is given: a file name without a
      separator, joined to any directory, keeps its own name as key. */
  lemma BasenameOfJoin(dir: string, name: string)
    requires name != [] && '/' !in name
    ensures FileBasename(JoinPath(dir, name)) == name
  {
    var p := JoinPath(dir, name);
    var d := if |dir| > 0 && dir[|dir| - 1] == '/' then dir else dir + "/";
    assert p == d + name;
    assert name[|name| - 1] in name;
    assert StripTrailingSlashes(p) == p;
    AfterLastSlashOfSuffix(d, name);
  }

  // ---------------------------------------------------------------------------
  // The bucket

  function KeyOtherThan(key: string): S3Object -> bool
  {
    (o: S3Object) => o.key != key
  }

  /** The bucket without the object called `key`. */
  function WithoutKey(objects: seq<S3Object>, key: string): seq<S3Object>
  {
    Filter(objects, KeyOtherThan(key))
  }

  /** Removing a key leaves every other object and no object with that key. */
  lemma WithoutKeyFacts(objects: seq<S3Object>, key: string)
    ensures forall k | 0 <= k < |WithoutKey(objects, key)| ::
              WithoutKey(objects, key)[k] in objects && WithoutKey(objects, key)[k].key != key
    ensures forall k | 0 <= k < |objects| && objects[k].key != key :: objects[k] in WithoutKey(objects, key)
  {
    var w := WithoutKey(objects, key);
    forall k | 0 <= k < |w| ensures w[k].key != key {
      assert KeyOtherThan(key)(w[k]);
    }
    forall k | 0 <= k < |objects| && objects[k].key != key ensures objects[k] in w {
      assert KeyOtherThan(key)(objects[k]);
    }
  }

  /** The effect of `send` of the local file at `fullpath`, whose size is `localSize`
      (`None` when it cannot be read): the object keyed by the file's base name is
      created or replaced. */
  function SendEffect(objects: seq<S3Object>, reachable: bool, fullpath: string, localSize: Option<int>)
    : (seq<S3Object>, Result<string>)
  {
    if !reachable then (objects, Err(Unreachable))
    else if localSize.None? then (objects, Err("No such file or directory @ rb_sysopen - " + fullpath))
    else
      var key := FileBasename(fullpath);
      (WithoutKey(objects, key) + [S3Object(key, localSize.value)], Ok(key))
  }

  /** After a successful `send` of `<dir>/<name>`, the bucket holds exactly one object
      keyed `name`, with the local file's size, and every object with another key is
      still there. */
  lemma SendStoresUnderBasename(objects: seq<S3Object>, dir: string, name: string, size: int)
    requires name != [] && '/' !in name
    ensures var (after, r) := SendEffect(objects, true, JoinPath(dir, name), Some(size));
      && r == Ok(name)
      && WithKey(after, name) == [S3Object(name, size)]
      && forall k | 0 <= k < |objects| && objects[k].key != name :: objects[k] in after
  {
    BasenameOfJoin(dir, name);
    var w := WithoutKey(objects, name);
    WithoutKeyFacts(objects, name);
    WithKeyOfNone(w, name);
    FilterAppend(w, [S3Object(name, size)], KeyIs(name));
    assert Filter([S3Object(name, size)], KeyIs(name)) == [S3Object(name, size)] by {
      assert [S3Object(name, size)][..0] == [];
    }
  }

  lemma WithKeyOfNone(objects: seq<S3Object>, key: string)
    requires forall k | 0 <= k < |objects| :: objects[k].key != key
    ensures WithKey(objects, key) == []
  {
    forall k | 0 <= k < |objects| ensures !KeyIs(key)(objects[k]) {
    }
    FilterNone(objects, KeyIs(key));
  }

  lemma RemoteSumsStep(listing: seq<S3Object>, name: string, j: int)
    requires 0 <= j < |ListExtensions|
    ensures var ext := ListExtensions[j];
      Filter(ListExtensions[..j + 1], SidecarUnique(listing, name)) ==
        Filter(ListExtensions[..j], SidecarUnique(listing, name))
        + (if |WithKey(listing, SidecarName(name, ext))| == 1 then [ext] else [])
  {
    FilterPrefixStep(ListExtensions, j, SidecarUnique(listing, name));
  }

  class Bucket {
    var objects: seq<S3Object>
    var reachable: bool

    constructor (objects: seq<S3Object>, reachable: bool)
      ensures this.objects == objects && this.reachable == reachable
    {
      this.objects := objects;
      this.reachable := reachable;
    }

    /** The sidecar scan of `list`: each extension whose sidecar key occurs exactly once
        in the listing. */
    method DetectSums(listing: seq<S3Object>, name: string) returns (csum: seq<string>)
      ensures csum == RemoteSums(listing, name)
    {
      csum := [];
      var j := 0;
      while j < |ListExtensions|
        invariant 0 <= j <= |ListExtensions|
        invariant csum == Filter(ListExtensions[..j], SidecarUnique(listing, name))
      {
        var sumobj := WithKey(listing, SidecarName(name, ListExtensions[j]));
        RemoteSumsStep(listing, name, j);
        if |sumobj| == 1 {
          csum := csum + [ListExtensions[j]];
        }
        j := j + 1;
      }
      assert ListExtensions[..j] == ListExtensions;
    }

    /** The record `list` builds for one selected object. */
    method ListRecord(o: S3Object, bn: string, listing: seq<S3Object>) returns (r: Result<Bakfile>)
      ensures r == RemoteRecordFn(bn, listing)(o)
    {
      var date := DetermineCreationDate(o.key, bn);
      if date.Err? {
        return Err(date.reason);
      }
      var csum := DetectSums(listing, o.key);
      return Ok(Bakfile(Some(o.key), Some(date.value), Some(o.size), csum));
    }

    /** `ModuleRemoteAwsS3#list`. */
    method List(basename: Option<string>) returns (r: Result<seq<Bakfile>>)
      ensures r == if reachable then RemoteCatalog(objects, basename) else Err(Unreachable)
    {
      if !reachable {
        return Err(Unreachable);
      }
      var listing := Listing(objects);
      var bn := Interpolate(basename);
      var core := CoreObjects(listing, bn);
      ghost var f := RemoteRecordFn(bn, listing);
      var results: seq<Bakfile> := [];
      var i := 0;
      while i < |core|
        invariant 0 <= i <= |core|
        invariant MapResults(core[..i], f) == Ok(results)
      {
        var rec := ListRecord(core[i], bn, listing);
        MapResultsStep(core, i, f);
        if rec.Err? {
          MapResultsFailurePersists(core, i + 1, f);
          return Err(rec.reason);
        }
        results := results + [rec.value];
        i := i + 1;
      }
      assert core[..i] == core;
      return Ok(results);
    }

    /** `ModuleRemoteAwsS3#send`. */
    method Send(fullpath: string, localSize: Option<int>) returns (r: Result<string>)
      modifies this
      ensures (objects, r) == SendEffect(old(objects), reachable, fullpath, localSize)
      ensures reachable == old(reachable)
    {
      if !reachable {
        return Err(Unreachable);
      }
      if localSize.None? {
        return Err("No such file or directory @ rb_sysopen - " + fullpath);
      }
      var key := FileBasename(fullpath);
      objects := WithoutKey(objects, key) + [S3Object(key, localSize.value)];
      return Ok(key);
    }

    /** `ModuleRemoteAwsS3#delete`: removes the object with exactly this key; deleting a
        key that does not exist succeeds. */
    method Delete(key: string) returns (ok: bool)
      modifies this
      ensures ok == reachable && reachable == old(reachable)
      ensures objects == if reachable then WithoutKey(old(objects), key) else old(objects)
    {
      if !reachable {
        return false;
      }
      objects := WithoutKey(objects, key);
      return true;
    }
  }
}
