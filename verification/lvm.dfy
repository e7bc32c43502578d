/** `LvmSnapshots`: a snapshot of the logical volume `/dev/<vg>/<lv>` is created as
    `snap_<prefix>_<lv>` in the same volume group, with `lvcreate`, and destroyed with
    `lvremove`. Where the two commands are (`path_to_command`) and what running a
    command line yields (`Open3.capture2e`) are parameters. */
module LvmSnapshots {

  import opened Wrappers
  import opened Text

  /** `[-A-Za-z0-9_.]` */
  predicate IsVolumeChar(c: char)
  {
    IsAlnum(c) || c == '-' || c == '_' || c == '.'
  }

  /** A volume group and a logical volume in it. */
  datatype Volume = Volume(group: string, name: string)

  predicate ValidVolume(v: Volume)
  {
    NonEmptyOver(v.group, IsVolumeChar) && NonEmptyOver(v.name, IsVolumeChar)
  }

  function DevicePath(v: Volume): string
  {
    "/dev/" + v.group + "/" + v.name
  }

  /** One line that `\/dev\/([-A-Za-z0-9_\.]+)\/([-A-Za-z0-9_\.]+)` matches entirely,
      with its two groups. */
  function ParseLine(line: string): (r: Option<Volume>)
    ensures r.Some? ==> ValidVolume(r.value) && line == DevicePath(r.value)
  {
    if !StartsWith(line, "/dev/") then None
    else
      var parts := SplitOn(line[5..], '/');
      if |parts| == 2 && NonEmptyOver(parts[0], IsVolumeChar) && NonEmptyOver(parts[1], IsVolumeChar) then
        SplitOnTwo(line[5..], '/');
        assert line == "/dev/" + line[5..];
        Some(Volume(parts[0], parts[1]))
      else None
  }

  /** `blkdev =~ /^\/dev\/(...)\/(...)$/`: the groups of the first line that matches. */
  function ParseDevice(blkdev: string): Option<Volume>
  {
    FirstVolume(Lines(blkdev))
  }

  function FirstVolume(lines: seq<string>): (r: Option<Volume>)
    ensures r.Some? <==> exists k | 0 <= k < |lines| :: ParseLine(lines[k]).Some?
    ensures r.Some? ==> exists k | 0 <= k < |lines| :: ParseLine(lines[k]) == r
                                  && forall j | 0 <= j < k :: ParseLine(lines[j]).None?
    decreases |lines|
  {
    if lines == [] then None
    else if ParseLine(lines[0]).Some? then ParseLine(lines[0])
    else
      var r := FirstVolume(lines[1..]);
      assert forall k | 1 <= k < |lines| :: lines[k] == lines[1..][k - 1];
      r
  }

  /** The name of the snapshot of logical volume `lv`. */
  function SnapshotName(prefix: string, lv: string): string
  {
    "snap_" + prefix + "_" + lv
  }

  /** What running a command line yielded: whether it exited, its status, its output. */
  datatype Outcome = Outcome(exited: bool, status: int, output: string)

  predicate Succeeded(o: Outcome)
  {
    o.exited && o.status == 0
  }

  const NoLvcreate := "Command 'lvcreate' not found in PATH. Check lvm is installed and in PATH"
  const NoLvremove := "Command 'lvremove' not found in PATH. Check lvm is installed and in PATH"

  function CannotParse(blkdev: string): string
  {
    "Error: cannot parse LVM Logical Volume name: [" + blkdev + "]"
  }

  function CreateCommand(lvcreate: string, size: string, snapname: string, blkdev: string): string
  {
    lvcreate + " -s -L " + size + " -n " + snapname + " " + blkdev
  }

  function RemoveCommand(lvremove: string, snap: string): string
  {
    lvremove + " -f " + snap
  }

  /** `LvmSnapshots.create`: the device path of the new snapshot. */
  function Create(blkdev: string, prefix: string, size: string, lvcreate: Option<string>, run: string -> Outcome)
    : Result<string>
  {
    match ParseDevice(blkdev)
    case None => Err(CannotParse(blkdev))
    case Some(v) =>
      var snapname := SnapshotName(prefix, v.name);
      if lvcreate.None? then Err(NoLvcreate)
      else
        var command := CreateCommand(lvcreate.value, size, snapname, blkdev);
        var out := run(command);
        if !Succeeded(out) then Err("Creation of LVM snapshot failed:\n" + command + "\n" + out.output)
        else Ok(DevicePath(Volume(v.group, snapname)))
  }

  /** `LvmSnapshots.destroy`. */
  function Destroy(snap: string, lvremove: Option<string>, run: string -> Outcome): Result<()>
  {
    if lvremove.None? then Err(NoLvremove)
    else
      var command := RemoveCommand(lvremove.value, snap);
      var out := run(command);
      if !Succeeded(out) then Err("Deletion of LVM snapshot failed:\n" + command + "\n" + out.output)
      else Ok(())
  }

  // ---------------------------------------------------------------------------
  // Properties

  /** The path of a valid volume parses back into that volume. */
  lemma ParseDevicePath(v: Volume)
    requires ValidVolume(v)
    ensures ParseDevice(DevicePath(v)) == Some(v)
  {
    var p := DevicePath(v);
    VolumeTextFree(v.group);
    VolumeTextFree(v.name);
    var tail := v.group + ['/'] + v.name;
    assert p == "/dev/" + tail;
    assert StartsWith(p, "/dev/") && p[5..] == tail;
    SplitOnAt(v.group, v.name, '/');
    SplitOnFree(v.name, '/');
    assert ParseLine(p) == Some(v);
    assert '\n' !in tail;
    assert '\n' !in p;
    SplitOnFree(p, '\n');
  }

  /** Volume-name characters include neither a slash nor a newline. */
  lemma VolumeTextFree(s: string)
    requires forall i | 0 <= i < |s| :: IsVolumeChar(s[i])
    ensures '/' !in s && '\n' !in s
  {
  }

  /** A device is accepted exactly when one of its lines is the path of a valid volume,
      and the volume read is that of the first such line. */
  lemma ParseDeviceFacts(blkdev: string)
    ensures var r := ParseDevice(blkdev);
      && (r.Some? <==> exists k | 0 <= k < |Lines(blkdev)| :: exists v :: ValidVolume(v) && Lines(blkdev)[k] == DevicePath(v))
      && (r.Some? ==> ValidVolume(r.value) && DevicePath(r.value) in Lines(blkdev))
  {
    var lines := Lines(blkdev);
    if exists k | 0 <= k < |lines| :: exists v :: ValidVolume(v) && lines[k] == DevicePath(v) {
      var k, v :| 0 <= k < |lines| && ValidVolume(v) && lines[k] == DevicePath(v);
      ParseDevicePath(v);
      SplitOnFree(DevicePath(v), '\n');
      assert ParseLine(lines[k]) == Some(v);
    }
    var r := ParseDevice(blkdev);
    if r.Some? {
      var k :| 0 <= k < |lines| && ParseLine(lines[k]) == r;
      assert lines[k] == DevicePath(r.value);
    }
  }

  /** `create` succeeds exactly when the device parses, `lvcreate` is found and the
      command succeeds; the snapshot is then `snap_<prefix>_<lv>` in the volume group of
      the device, and its path parses back into that group and name whenever the prefix
      is made of volume-name characters. */
  lemma CreateFacts(blkdev: string, prefix: string, size: string, lvcreate: Option<string>, run: string -> Outcome)
    ensures var r := Create(blkdev, prefix, size, lvcreate, run);
      var v := ParseDevice(blkdev);
      && (v.None? ==> r == Err(CannotParse(blkdev)))
      && (v.Some? && lvcreate.None? ==> r == Err(NoLvcreate))
      && (r.Ok? <==> v.Some? && lvcreate.Some?
                     && Succeeded(run(CreateCommand(lvcreate.value, size, SnapshotName(prefix, v.value.name), blkdev))))
      && (r.Ok? ==> r.value == DevicePath(Volume(v.value.group, SnapshotName(prefix, v.value.name))))
      && (r.Ok? && (forall i | 0 <= i < |prefix| :: IsVolumeChar(prefix[i])) ==>
            ParseDevice(r.value) == Some(Volume(v.value.group, SnapshotName(prefix, v.value.name))))
  {
    var v := ParseDevice(blkdev);
    if v.Some? && (forall i | 0 <= i < |prefix| :: IsVolumeChar(prefix[i])) {
      ParseDeviceFacts(blkdev);
      SnapshotPathParses(v.value, prefix);
    }
  }

  /** The snapshot of a valid volume, under a prefix of volume-name characters, is a
      valid volume of the same group. */
  lemma SnapshotPathParses(v: Volume, prefix: string)
    requires ValidVolume(v) && forall i | 0 <= i < |prefix| :: IsVolumeChar(prefix[i])
    ensures ParseDevice(DevicePath(Volume(v.group, SnapshotName(prefix, v.name)))) == Some(Volume(v.group, SnapshotName(prefix, v.name)))
  {
    var name := SnapshotName(prefix, v.name);
    assert NonEmptyOver(name, IsVolumeChar) by {
      forall i | 0 <= i < |name| ensures IsVolumeChar(name[i]) {
        if i < 5 {
        } else if i < 5 + |prefix| {
          assert name[i] == prefix[i - 5];
        } else if i > 5 + |prefix| {
          assert name[i] == v.name[i - 6 - |prefix|];
        }
      }
    }
    ParseDevicePath(Volume(v.group, name));
  }

  /** `destroy` succeeds exactly when `lvremove` is found and `lvremove -f <snap>`
      succeeds. */
  lemma DestroyFacts(snap: string, lvremove: Option<string>, run: string -> Outcome)
    ensures var r := Destroy(snap, lvremove, run);
      && (lvremove.None? ==> r == Err(NoLvremove))
      && (r.Ok? <==> lvremove.Some? && Succeeded(run(RemoveCommand(lvremove.value, snap))))
  {
  }
}
