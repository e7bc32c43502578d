/** Checksum sidecar files: which names count as checksum files, which extensions
    exist, and the name and one-line content of the sidecar `Checksum.create` writes.
    The digest itself is computed by a library the model does not see; it enters as
    a parameter. */
module Checksums {

  import opened Wrappers
  import opened Text

  /** `Checksum.list_extensions`, in its order. */
  const ListExtensions: seq<string> := ["md5", "sha1", "sha224", "sha256", "sha384", "sha512"]

  /** The algorithm `Checksum.create` uses when none is named. */
  const DefaultSumType: string := "sha256"

  /** The pattern of `Checksum.checksum?` matches with its alternative `e` starting at `p`:
      one character other than a newline (the unescaped `.`), then `e`, then the end of
      the string or of a line (`$`). */
  predicate SuffixMatchAt(s: string, p: int, e: string)
  {
    0 <= p && p + 1 + |e| <= |s| && s[p] != '\n' && s[p + 1..p + 1 + |e|] == e
    && (p + 1 + |e| == |s| || s[p + 1 + |e|] == '\n')
  }

  /** `Checksum.checksum?`: some alternative of the pattern matches somewhere. */
  predicate IsChecksumName(s: string)
  {
    exists p, k | 0 <= p < |s| && 0 <= k < |ListExtensions| :: SuffixMatchAt(s, p, ListExtensions[k])
  }

  /** The name of the sidecar holding the checksum of type `ext` for backup `name`. */
  function SidecarName(name: string, ext: string): string
  {
    name + "." + ext
  }

  /** Every sidecar name built from a known extension is recognised as a checksum file. */
  lemma SidecarNameIsChecksum(name: string, k: int)
    requires 0 <= k < |ListExtensions|
    ensures IsChecksumName(SidecarName(name, ListExtensions[k]))
  {
    var s := SidecarName(name, ListExtensions[k]);
    assert SuffixMatchAt(s, |name|, ListExtensions[k]);
  }

  /** For a name on one line, being a checksum name means ending with one of the six
      extensions preceded by at least one character. */
  lemma ChecksumNameOnOneLine(s: string)
    requires '\n' !in s
    ensures IsChecksumName(s) <==>
              exists k | 0 <= k < |ListExtensions| :: |ListExtensions[k]| < |s| && EndsWith(s, ListExtensions[k])
  {
    if IsChecksumName(s) {
      var p, k :| 0 <= p < |s| && 0 <= k < |ListExtensions| && SuffixMatchAt(s, p, ListExtensions[k]);
      var e := ListExtensions[k];
      assert p + 1 + |e| == |s| by {
        if p + 1 + |e| < |s| {
          assert false;
        }
      }
      assert EndsWith(s, e);
    }
    if exists k | 0 <= k < |ListExtensions| :: |ListExtensions[k]| < |s| && EndsWith(s, ListExtensions[k]) {
      var k :| 0 <= k < |ListExtensions| && |ListExtensions[k]| < |s| && EndsWith(s, ListExtensions[k]);
      var p := |s| - |ListExtensions[k]| - 1;
      assert s[p] in s;
      assert SuffixMatchAt(s, p, ListExtensions[k]);
    }
  }

  /** The `.` of the pattern is not escaped: any character in front of an extension will do. */
  lemma AnyCharacterBeforeExtension()
    ensures IsChecksumName("xsha256")
  {
    assert SuffixMatchAt("xsha256", 0, ListExtensions[3]);
  }

  /** A one-line name that ends with none of the six extensions is not a checksum name. */
  lemma PlainArchiveIsNotChecksum(s: string)
    requires '\n' !in s
    requires forall k | 0 <= k < |ListExtensions| :: !EndsWith(s, ListExtensions[k])
    ensures !IsChecksumName(s)
  {
    ChecksumNameOnOneLine(s);
  }

  /** `$` also matches before a line break, so a name whose first line ends in an
      extension is a checksum name whatever its last line ends with. */
  lemma ChecksumOnEarlierLine()
    ensures IsChecksumName("a.md5\nb.tgz") && !EndsWith("a.md5\nb.tgz", "md5")
  {
    assert SuffixMatchAt("a.md5\nb.tgz", 1, ListExtensions[0]);
  }

  /** An extension with nothing in front of it is not a checksum name. */
  lemma BareExtensionIsNotChecksum()
    ensures forall k | 0 <= k < |ListExtensions| :: !IsChecksumName(ListExtensions[k])
  {
    forall k | 0 <= k < |ListExtensions| ensures !IsChecksumName(ListExtensions[k]) {
      var e := ListExtensions[k];
      assert '\n' !in e;
      ChecksumNameOnOneLine(e);
    }
  }

  /** The sidecar file `Checksum.create` writes: its name and its content. */
  datatype Sidecar = Sidecar(name: string, content: string)

  /** The checksum algorithms `Checksum.create` supports. */
  predicate SupportedSumType(sumtype: string)
  {
    sumtype == "md5" || sumtype == "sha1" || sumtype == "sha256"
  }

  /** `Checksum.create`: an unsupported checksum type raises before the backup is read;
      an unreadable backup (`digest` is `None`) raises too. Otherwise the sidecar is
      named `<bakfile>.<sumtype>` and holds the single line `<hexdigest>  <bakfile>`. */
  function CreateChecksum(bakfile: string, sumtype: string, digest: Option<string>): (r: Result<Sidecar>)
    ensures r.Ok? <==> SupportedSumType(sumtype) && digest.Some?
    ensures r.Ok? ==> r.value.name == SidecarName(bakfile, sumtype)
    ensures r.Ok? ==> r.value.content == digest.value + "  " + bakfile + "\n"
    ensures !SupportedSumType(sumtype) ==> r == Err("Unsupported checksum type: " + sumtype)
  {
    if !SupportedSumType(sumtype) then Err("Unsupported checksum type: " + sumtype)
    else if digest.None? then Err("cannot read backup file")
    else Ok(Sidecar(SidecarName(bakfile, sumtype), digest.value + "  " + bakfile + "\n"))
  }

  /** Every sidecar `Checksum.create` writes is recognised as a checksum file, so the
      listers never mistake it for a backup. */
  lemma CreatedSidecarIsChecksum(bakfile: string, sumtype: string, digest: Option<string>)
    requires CreateChecksum(bakfile, sumtype, digest).Ok?
    ensures IsChecksumName(CreateChecksum(bakfile, sumtype, digest).value.name)
  {
    if sumtype == "md5" {
      SidecarNameIsChecksum(bakfile, 0);
    } else if sumtype == "sha1" {
      SidecarNameIsChecksum(bakfile, 1);
    } else {
      SidecarNameIsChecksum(bakfile, 3);
    }
  }

  /** The sidecar content is exactly one line when the digest and the backup name have
      no line break. */
  lemma SidecarIsOneLine(bakfile: string, sumtype: string, digest: Option<string>)
    requires CreateChecksum(bakfile, sumtype, digest).Ok?
    requires '\n' !in digest.value && '\n' !in bakfile
    ensures Lines(CreateChecksum(bakfile, sumtype, digest).value.content) == [digest.value + "  " + bakfile, ""]
  {
    var line := digest.value + "  " + bakfile;
    assert '\n' !in line by {
      forall i | 0 <= i < |line| ensures line[i] != '\n' {
        if i < |digest.value| {
          assert line[i] == digest.value[i];
        } else if i >= |digest.value| + 2 {
          assert line[i] == bakfile[i - |digest.value| - 2];
        }
      }
    }
    SplitOnAt(line, "", '\n');
    assert line + ['\n'] + "" == line + "\n";
  }
}
