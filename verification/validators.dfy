/** The value validators of the configuration (`*Validator#validate_and_substitute`).
    A validator receives a configuration value and an error list; it either leaves the
    list alone and returns the value (possibly substituted: a day name becomes its
    weekday number, a reference becomes the resource it names), or pushes exactly one
    message and returns the value unchanged. A validator that makes Ruby raise (a method
    missing on the value, a non-string given to `File`) is an `Err` here. The
    file-system probes, the resources loaded so far and the module registry are
    parameters. */
module Validators {

  import opened Wrappers
  import opened Text
  import opened Values
  import opened Utilities
  /** The messages the validators push, one constructor per message text; `Describe`
      spells each out as rubackup prints it. */
  datatype Complaint =
    | NotAHash(input: Value)
    | NotAnArray(input: Value)
    | NotAString(input: Value)
    | NotAnInteger(input: Value)
    | NotABoolean(input: Value)
    | NotADirectory(input: Value)
    | NotAFileList(input: Value)
    | NotADirList(input: Value)
    | BadListItem(item: Value, dirOnly: bool)
    | NotACompressProg(input: Value)
    | NotASize(input: Value)
    | DayBelowOne(input: Value)
    | DayAboveThirtyOne(input: Value)
    | NotARegion
    | NotAPublicKey
    | NotASecretKey
    | NoCategory(kind: ResourceKind)
    | NoSuchResource(kind: ResourceKind, input: Value)
    | Unsupported(kindOf: ModuleKind, input: Value)
    | NotAnEmail(input: Value)
    | NotASnapshotType(input: Value)
    | NoBlockDevice(input: Value)
    | NotABlockDevice(input: Value)
    | FsaUnexpectedKey(key: string, filesys: Value)
    | FsaNoBlockDevice(filesys: Value)
    | FsaNoDevice(input: Value)

  /** The resource categories a reference validator looks a name up in. */
  datatype ResourceKind = AccessKeys | Schedules | SesMedias | S3Buckets

  /** The module categories of `$modules`. */
  datatype ModuleKind = BackupModule | EncryptModule | RemoteModule | NotifyModule

  /** The key of a resource category in `$resources`. */
  function CategoryName(k: ResourceKind): string
  {
    match k
    case AccessKeys => "aws_access_keys"
    case Schedules => "schedules"
    case SesMedias => "aws_ses_medias"
    case S3Buckets => "aws_s3_buckets"
  }

  function ModuleName(m: ModuleKind): string
  {
    match m
    case BackupModule => "backup"
    case EncryptModule => "encrypt"
    case RemoteModule => "remote"
    case NotifyModule => "notify"
  }

  function Quoted(v: Value): string { "'" + Show(v) + "'" }

  /** The text of a message. */
  function Describe(c: Complaint): string
  {
    match c
    case NotAHash(v) => "This is not a valid hash: " + Quoted(v)
    case NotAnArray(v) => "This is not a valid array: " + Quoted(v)
    case NotAString(v) => "This is not a valid string: " + Quoted(v)
    case NotAnInteger(v) => "This is not a valid integer: " + Quoted(v)
    case NotABoolean(v) => "This is not a valid boolean: " + Quoted(v)
    case NotADirectory(v) => "This is not a valid directory: " + Show(v)
    case NotAFileList(v) => "This is not a valid array: " + Show(v) + ". Expects a list of existing files or directories."
    case NotADirList(v) => "This is not a valid array: " + Show(v) + ". Expects a list of existing directories."
    case BadListItem(v, dirOnly) =>
      "List item " + Quoted(v) + (if dirOnly then " is not a valid directory" else " is not a valid file or directory")
    case NotACompressProg(v) =>
      "This is not a valid compression program: " + Quoted(v) + ". Expected something such as 'gzip' or 'xz' without any path."
    case NotASize(v) => "This is not a valid data size: " + Quoted(v) + ". Expected size such as 768M or 10G"
    case DayBelowOne(v) => "Invalid day of month: " + Quoted(v) + ". It cannot be less than 1"
    case DayAboveThirtyOne(v) => "Invalid day of month: " + Quoted(v) + ". It cannot be greater than 31"
    case NotARegion => "This is not a valid AWS Region (eg: 'us-west-2')"
    case NotAPublicKey => "This is not a valid public part of an AWS access key (20 characters alphanumeric string)"
    case NotASecretKey => "This is not a valid secret part of an AWS access key (40 characters string)"
    case NoCategory(k) => "Cannot find hash for resource type '" + CategoryName(k) + "'"
    case NoSuchResource(k, v) =>
      var what := match k
                  case AccessKeys => "access key"
                  case Schedules => "schedules"
                  case SesMedias => "ses media"
                  case S3Buckets => "S3 bucket";
      "Cannot find " + what + " with this name: " + Quoted(v)
    case Unsupported(m, v) => "Unsupported '" + ModuleName(m) + "' type: " + Quoted(v)
    case NotAnEmail(v) => "Invalid email address: " + Quoted(v)
    case NotASnapshotType(v) => "Invalid snapshot type: " + Quoted(v) + ". Valid snapshot types are: lvm"
    case NoBlockDevice(v) => "Cannot find block device: " + Quoted(v)
    case NotABlockDevice(v) => "Invalid block device: " + Quoted(v)
    case FsaUnexpectedKey(key, fs) =>
      "Unexpected '" + key + "' key in filesystem description hash: " + Quoted(fs)
      + ". Expected only block_device,snapshot_type,snapshot_size"
    case FsaNoBlockDevice(fs) => "Filesystem description hash contains no 'block_device' key: " + Quoted(fs)
    case FsaNoDevice(v) => "Cannot find filesystem block device: " + Quoted(v)
  }

  /** What a validator hands back: the value to use, and the messages it pushed. */
  datatype Verdict = Verdict(value: Value, errmsg: seq<Complaint>)

  /** `File.directory?`, `File.exist?` and `File.stat(path).blockdev?`. */
  datatype Probes = Probes(isDirectory: string -> bool, fileExists: string -> bool, isBlockDevice: string -> bool)

  /** The names under which `$modules` registers an implementation, per category. */
  datatype Registry = Registry(backup: set<string>, encrypt: set<string>, remote: set<string>, notify: set<string>)

  /** What the validators may consult: the file system, `$resources` (category name to
      the hash `load_category` returned, or `nil`) and `$modules`. */
  datatype Env = Env(probes: Probes, resources: seq<(string, Value)>, modules: Registry)

  datatype Validator =
    | HashValidator
    | ArrayValidator
    | StringValidator
    | IntegerValidator
    | BooleanValidator
    | DirectoryValidator
    | FileOrDirListValidator
    | DirListValidator
    | CompressProgValidator
    | ByteSizeValidator
    | DayOfMonthValidator
    | DayOfWeekValidator
    | AwsRegionValidator
    | AwsAccessKeyPublicValidator
    | AwsAccessKeySecretValidator
    | AwsAccessKeyReferenceValidator
    | ScheduleTypeValidator
    | SesMediaValidator
    | S3BucketReferenceValidator
    | BackupTypeValidator
    | EncryptTypeValidator
    | RemoteTypeValidator
    | NotifyTypeValidator
    | EmailAddressValidator
    | SnapshotTypeValidator
    | BlockDeviceValidator
    | FsaArrayValidator

  function Pass(v: Value): Result<Verdict> { Ok(Verdict(v, [])) }

  function Fail(v: Value, c: Complaint): Result<Verdict> { Ok(Verdict(v, [c])) }

  /** The `TypeError` `File` raises on something that is not a path. */
  const NotAPath := "no implicit conversion into String"

  // ---------------------------------------------------------------------------
  // Texts the patterns accept

  /** `input !~ /^X$/` is false: the input is a string and one of its lines is an `X`. */
  predicate LineMatches(input: Value, p: string -> bool)
  {
    input.Str? && SomeLine(input.s, p)
  }

  /** From Ruby 3.2 on, `=~` (and so `!~`) is answered by a string and by `nil` only;
      any other configuration value raises. */
  predicate AnswersMatch(input: Value)
  {
    input.Str? || input.Nil?
  }

  /** The `NoMethodError` of `input !~ pattern` on a value that does not answer `=~`. */
  function NoMatchMethod(input: Value): string
  {
    "undefined method '=~' for "
      + match input
        case Bool(b) => if b then "true" else "false"
        case Int(_) => "an instance of Integer"
        case Arr(_) => "an instance of Array"
        case Hash(_) => "an instance of Hash"
        case _ => "nil"
  }

  /** `if input !~ /^X$/ then <complain>`. */
  function PatternCheck(input: Value, p: string -> bool, c: Complaint): Result<Verdict>
  {
    if !AnswersMatch(input) then Err(NoMatchMethod(input))
    else Checked(LineMatches(input, p), input, c)
  }

  /** `[0-9]+(M|G)` */
  predicate ByteSizeText(s: string)
  {
    |s| >= 2 && AllDigits(s[..|s| - 1]) && (s[|s| - 1] == 'M' || s[|s| - 1] == 'G')
  }

  /** `[a-z0-9\-]+` */
  predicate AwsRegionText(s: string)
  {
    NonEmptyOver(s, (c: char) => IsLower(c) || IsDigit(c) || c == '-')
  }

  /** `[A-Z0-9]{20}` */
  predicate AccessKeyPublicText(s: string)
  {
    |s| == 20 && forall i | 0 <= i < |s| :: IsUpper(s[i]) || IsDigit(s[i])
  }

  /** `[A-Za-z0-9\+\/\=]{40}` */
  predicate AccessKeySecretText(s: string)
  {
    |s| == 40 && forall i | 0 <= i < |s| :: IsAlnum(s[i]) || s[i] == '+' || s[i] == '/' || s[i] == '='
  }

  /** `[\w+\-.]` under `/i`. */
  predicate IsMailLocalChar(c: char) { IsAlnum(c) || c == '_' || c == '+' || c == '-' || c == '.' }

  /** `[a-z\d\-]` under `/i`. */
  predicate IsHostChar(c: char) { IsAlnum(c) || c == '-' }

  /** `[a-z\d\-]+(\.[a-z]+)*\.[a-z]+` under `/i`: a host label and one or more
      alphabetic labels, dot-separated. */
  predicate MailDomainText(d: string)
  {
    var labels := SplitOn(d, '.');
    |labels| >= 2 && NonEmptyOver(labels[0], IsHostChar)
    && forall k | 1 <= k < |labels| :: NonEmptyOver(labels[k], IsLetter)
  }

  /** `\A[\w+\-.]+@[a-z\d\-]+(\.[a-z]+)*\.[a-z]+\z` under `/i`, anchored at both ends of
      the whole string. The local part cannot hold `@`, so the first `@` splits. */
  predicate EmailAddressText(s: string)
  {
    exists i | 0 < i < |s| ::
      s[i] == '@' && NonEmptyOver(s[..i], IsMailLocalChar) && MailDomainText(s[i + 1..])
  }

  /** `Date::ABBR_DAYNAMES`: the weekday number of a name is its index (Sunday is 0). */
  const DayAbbreviations: seq<string> := ["Sun", "Mon", "Tue", "Wed", "Thu", "Fri", "Sat"]

  /** The `list_dow` of `DayOfWeekValidator`, Monday first. */
  const DayNames: seq<string> := ["Mon", "Tue", "Wed", "Thu", "Fri", "Sat", "Sun"]

  /** `Date._strptime(name, '%a').fetch(:wday)` for a name of `DayNames`. */
  function WeekdayNumber(name: string): (n: int)
    requires name in DayNames
    ensures 0 <= n < 7 && DayAbbreviations[n] == name
  {
    if name == "Sun" then 0 else if name == "Mon" then 1 else if name == "Tue" then 2
    else if name == "Wed" then 3 else if name == "Thu" then 4 else if name == "Fri" then 5 else 6
  }

  // ---------------------------------------------------------------------------
  // `to_i` and `to_s` for IntegerValidator

  /** The longest prefix of `s` made of decimal digits. */
  function LeadingDigits(s: string): (r: string)
    ensures |r| <= |s| && AllDigits(r) && r == s[..|r|]
    ensures AllDigits(s) ==> r == s
    decreases |s|
  {
    if s == [] || !IsDigit(s[0]) then ""
    else
      var rest := LeadingDigits(s[1..]);
      assert s[1..][..|rest|] == s[1..|rest| + 1];
      [s[0]] + rest
  }

  /** `String#to_i`: an optional sign and the digits that follow it; no digits read as 0. */
  function StringToI(s: string): int
  {
    if |s| > 0 && s[0] == '-' then -(DecimalValue(LeadingDigits(s[1..])) as int)
    else if |s| > 0 && s[0] == '+' then DecimalValue(LeadingDigits(s[1..])) as int
    else DecimalValue(LeadingDigits(s)) as int
  }

  /** `input.to_i`: defined on strings, integers and `nil`; anything else raises. */
  function ToI(input: Value): Result<int>
  {
    match input
    case Str(s) => Ok(StringToI(s))
    case Int(i) => Ok(i)
    case Nil => Ok(0)
    case _ => Err("undefined method 'to_i'")
  }

  /** `to_i` reads back every integer `to_s` writes. */
  lemma StringToIOfText(i: int)
    ensures StringToI(IntToString(i)) == i
  {
    if i < 0 {
      ValueOfNatToString(-i);
      assert IntToString(i)[1..] == NatToString(-i);
    } else {
      ValueOfNatToString(i);
      assert NatToString(i)[0] != '-' && NatToString(i)[0] != '+';
    }
  }

  /** A string survives `to_i` then `to_s` exactly when it is the canonical text of an
      integer. */
  lemma IntegerTextRoundTrip(s: string)
    ensures IntToString(StringToI(s)) == s <==> ParseCanonicalInt(s).Some?
  {
    if IntToString(StringToI(s)) == s {
      ParseCanonicalIntOfText(StringToI(s));
    }
    if ParseCanonicalInt(s).Some? {
      ParseCanonicalIntIsText(s, ParseCanonicalInt(s).value);
      StringToIOfText(ParseCanonicalInt(s).value);
    }
  }

  // ---------------------------------------------------------------------------
  // Validators that loop over a list and stop at the first bad item

  /** Checking the items of a list from the `i`-th on: the first item whose check raises
      or fails decides; a list whose items all pass is returned unchanged. */
  function ScanFrom(input: Value, items: seq<Value>, i: nat, check: Value -> Result<Option<Complaint>>): Result<Verdict>
    decreases |items| - i
  {
    if i >= |items| then Pass(input)
    else
      match check(items[i])
      case Err(e) => Err(e)
      case Ok(Some(c)) => Fail(input, c)
      case Ok(None) => ScanFrom(input, items, i + 1, check)
  }

  /** One item of `DirListValidator` (`dirOnly`) or `FileOrDirListValidator`. */
  function ItemComplaint(item: Value, p: Probes, dirOnly: bool): Result<Option<Complaint>>
  {
    if !item.Str? then Err(NotAPath)
    else if p.isDirectory(item.s) || (!dirOnly && p.fileExists(item.s)) then Ok(None)
    else Ok(Some(BadListItem(item, dirOnly)))
  }

  function ItemCheck(p: Probes, dirOnly: bool): Value -> Result<Option<Complaint>>
  {
    (item: Value) => ItemComplaint(item, p, dirOnly)
  }

  const FsDevSupportedKeys: seq<string> := ["block_device", "snapshot_type", "snapshot_size"]

  /** The first key of a filesystem description that is not a supported one. */
  function FirstUnexpectedKey(pairs: seq<(string, Value)>): (r: Option<string>)
    ensures r.None? <==> forall k | 0 <= k < |pairs| :: pairs[k].0 in FsDevSupportedKeys
    ensures r.Some? ==> r.value !in FsDevSupportedKeys && HasKey(pairs, r.value)
    decreases |pairs|
  {
    if pairs == [] then None
    else if pairs[0].0 !in FsDevSupportedKeys then Some(pairs[0].0)
    else
      var r := FirstUnexpectedKey(pairs[1..]);
      assert forall k | 1 <= k < |pairs| :: pairs[k] == pairs[1..][k - 1];
      if r.Some? then
        var k :| 0 <= k < |pairs[1..]| && pairs[1..][k].0 == r.value;
        assert pairs[k + 1].0 == r.value;
        r
      else r
  }

  /** One filesystem description of `FsaArrayValidator`; `input` is the whole array,
      which the "not a hash" message quotes. */
  function FilesysComplaint(input: Value, filesys: Value, p: Probes): Result<Option<Complaint>>
  {
    if !filesys.Hash? then Ok(Some(NotAHash(input)))
    else
      var unexpected := FirstUnexpectedKey(filesys.pairs);
      if unexpected.Some? then Ok(Some(FsaUnexpectedKey(unexpected.value, filesys)))
      else
        var fsdevice := FetchOrNil(filesys.pairs, "block_device");
        if !Truthy(fsdevice) then Ok(Some(FsaNoBlockDevice(filesys)))
        else if !fsdevice.Str? then Err(NotAPath)
        else if !p.fileExists(fsdevice.s) then Ok(Some(FsaNoDevice(fsdevice)))
        else if !p.isBlockDevice(fsdevice.s) then Ok(Some(NotABlockDevice(fsdevice)))
        else
          var snapType := FetchOrNil(filesys.pairs, "snapshot_type");
          var snapSize := FetchOrNil(filesys.pairs, "snapshot_size");
          if snapType != Nil && snapType != Str("lvm") then Ok(Some(NotASnapshotType(snapType)))
          else if !AnswersMatch(snapSize) then Err(NoMatchMethod(snapSize))
          else if snapSize != Nil && !LineMatches(snapSize, ByteSizeText) then Ok(Some(NotASize(snapSize)))
          else Ok(None)
  }

  function FilesysCheck(input: Value, p: Probes): Value -> Result<Option<Complaint>>
  {
    (filesys: Value) => FilesysComplaint(input, filesys, p)
  }

  /** The loop of the list validators: checks the items in order and returns at the
      first one that raises or fails. */
  method ScanItems(input: Value, items: seq<Value>, check: Value -> Result<Option<Complaint>>) returns (r: Result<Verdict>)
    ensures r == ScanFrom(input, items, 0, check)
    ensures r.Ok? ==> |r.value.errmsg| <= 1 && r.value.value == input
    ensures r == Pass(input) <==> forall k | 0 <= k < |items| :: check(items[k]) == Ok(None)
  {
    var i := 0;
    while i < |items|
      invariant 0 <= i <= |items|
      invariant forall k | 0 <= k < i :: check(items[k]) == Ok(None)
      invariant ScanFrom(input, items, i, check) == ScanFrom(input, items, 0, check)
      decreases |items| - i
    {
      var c := check(items[i]);
      if c.Err? {
        return Err(c.reason);
      }
      if c.value.Some? {
        return Fail(input, c.value.value);
      }
      i := i + 1;
    }
    return Pass(input);
  }

  // ---------------------------------------------------------------------------
  // Resource and module lookups

  /** `$resources.fetch(category, nil)`: `load_category` stores a hash or `nil`. */
  function Category(env: Env, category: string): Option<seq<(string, Value)>>
  {
    match FetchOrNil(env.resources, category)
    case Hash(pairs) => Some(pairs)
    case _ => None
  }

  /** A reference validator: the resource the name refers to replaces the name. */
  function Reference(env: Env, kind: ResourceKind, input: Value): Result<Verdict>
  {
    var resources := Category(env, CategoryName(kind));
    if resources.None? then Fail(input, NoCategory(kind))
    else
      var found := if input.Str? then FetchOrNil(resources.value, input.s) else Nil;
      if !Truthy(found) then Fail(input, NoSuchResource(kind, input))
      else Pass(found)
  }

  function ModuleNames(r: Registry, m: ModuleKind): set<string>
  {
    match m
    case BackupModule => r.backup
    case EncryptModule => r.encrypt
    case RemoteModule => r.remote
    case NotifyModule => r.notify
  }

  // ---------------------------------------------------------------------------
  // The validators

  /** The common shape of a check: the input passes unchanged, or one message is pushed. */
  function Checked(ok: bool, input: Value, c: Complaint): (r: Result<Verdict>)
    ensures r.Ok? && r.value.value == input && (r.value.errmsg == [] <==> ok) && |r.value.errmsg| <= 1
  {
    if ok then Pass(input) else Fail(input, c)
  }

  function IntegerCheck(input: Value): Result<Verdict>
  {
    var n := ToI(input);
    if n.Err? then Err(n.reason)
    else Checked(Show(input) == IntToString(n.value), input, NotAnInteger(input))
  }

  function DayOfMonthCheck(input: Value): Result<Verdict>
  {
    if !input.Int? then Fail(input, NotAnInteger(input))
    else if input.i < 1 then Fail(input, DayBelowOne(input))
    else Checked(input.i <= 31, input, DayAboveThirtyOne(input))
  }

  function BlockDeviceCheck(input: Value, p: Probes): Result<Verdict>
  {
    if !input.Str? then Err(NotAPath)
    else if !p.fileExists(input.s) then Fail(input, NoBlockDevice(input))
    else Checked(p.isBlockDevice(input.s), input, NotABlockDevice(input))
  }

  function DayOfWeekCheck(input: Value): Result<Verdict>
  {
    // The failure message is built with `list_dow.split(',')`, and `Array` has no `split`.
    if input.Str? && input.s in DayNames then Pass(Int(WeekdayNumber(input.s)))
    else Err("undefined method 'split' for an instance of Array")
  }

  function DirectoryCheck(input: Value, p: Probes): Result<Verdict>
  {
    if !input.Str? then Err(NotAPath)
    else Checked(p.isDirectory(input.s), input, NotADirectory(input))
  }

  function ListCheck(input: Value, p: Probes, dirOnly: bool): Result<Verdict>
  {
    if !input.Arr? then Fail(input, if dirOnly then NotADirList(input) else NotAFileList(input))
    else ScanFrom(input, input.items, 0, ItemCheck(p, dirOnly))
  }

  function FsaCheck(input: Value, p: Probes): Result<Verdict>
  {
    if !input.Arr? then Fail(input, NotAnArray(input))
    else ScanFrom(input, input.items, 0, FilesysCheck(input, p))
  }

  /** `validate_and_substitute` of each validator class. */
  function Validate(v: Validator, input: Value, env: Env): Result<Verdict>
  {
    match v
    case HashValidator => Checked(input.Hash?, input, NotAHash(input))
    case ArrayValidator => Checked(input.Arr?, input, NotAnArray(input))
    case StringValidator => Checked(input.Str?, input, NotAString(input))
    case IntegerValidator => IntegerCheck(input)
    case BooleanValidator => Checked(input.Bool?, input, NotABoolean(input))
    case DirectoryValidator => DirectoryCheck(input, env.probes)
    case FileOrDirListValidator => ListCheck(input, env.probes, false)
    case DirListValidator => ListCheck(input, env.probes, true)
    case CompressProgValidator => Checked(input.Str? && CompressToExtension(input.s).Some?, input, NotACompressProg(input))
    case ByteSizeValidator => PatternCheck(input, ByteSizeText, NotASize(input))
    case DayOfMonthValidator => DayOfMonthCheck(input)
    case DayOfWeekValidator => DayOfWeekCheck(input)
    case AwsRegionValidator => PatternCheck(input, AwsRegionText, NotARegion)
    case AwsAccessKeyPublicValidator => PatternCheck(input, AccessKeyPublicText, NotAPublicKey)
    case AwsAccessKeySecretValidator => PatternCheck(input, AccessKeySecretText, NotASecretKey)
    case AwsAccessKeyReferenceValidator => Reference(env, AccessKeys, input)
    case ScheduleTypeValidator => Reference(env, Schedules, input)
    case SesMediaValidator => Reference(env, SesMedias, input)
    case S3BucketReferenceValidator => Reference(env, S3Buckets, input)
    case BackupTypeValidator => Registered(env.modules, BackupModule, input)
    case EncryptTypeValidator => Registered(env.modules, EncryptModule, input)
    case RemoteTypeValidator => Registered(env.modules, RemoteModule, input)
    case NotifyTypeValidator => Registered(env.modules, NotifyModule, input)
    case EmailAddressValidator =>
      if !AnswersMatch(input) then Err(NoMatchMethod(input))
      else Checked(input.Str? && EmailAddressText(input.s), input, NotAnEmail(input))
    case SnapshotTypeValidator => Checked(input == Str("lvm"), input, NotASnapshotType(input))
    case BlockDeviceValidator => BlockDeviceCheck(input, env.probes)
    case FsaArrayValidator => FsaCheck(input, env.probes)
  }

  function Registered(r: Registry, m: ModuleKind, input: Value): Result<Verdict>
  {
    Checked(input.Str? && input.s in ModuleNames(r, m), input, Unsupported(m, input))
  }

  /** `validate_and_substitute`, with the list validators running their loop. */
  method ValidateAndSubstitute(v: Validator, input: Value, env: Env) returns (r: Result<Verdict>)
    ensures r == Validate(v, input, env)
  {
    if input.Arr? && v == FileOrDirListValidator {
      r := ScanItems(input, input.items, ItemCheck(env.probes, false));
    } else if input.Arr? && v == DirListValidator {
      r := ScanItems(input, input.items, ItemCheck(env.probes, true));
    } else if input.Arr? && v == FsaArrayValidator {
      r := ScanItems(input, input.items, FilesysCheck(input, env.probes));
    } else {
      r := Validate(v, input, env);
    }
  }

  // ---------------------------------------------------------------------------
  // Properties

  /** A scan that does not raise pushes at most one message and never substitutes. */
  lemma {:induction false} ScanShape(input: Value, items: seq<Value>, i: nat, check: Value -> Result<Option<Complaint>>)
    ensures var r := ScanFrom(input, items, i, check);
      r.Ok? ==> |r.value.errmsg| <= 1 && r.value.value == input
    decreases |items| - i
  {
    if i < |items| && check(items[i]) == Ok(None) {
      ScanShape(input, items, i + 1, check);
    }
  }

  /** Every validator either raises, or pushes nothing, or pushes exactly one message and
      hands back its input unchanged. */
  lemma VerdictShape(v: Validator, input: Value, env: Env)
    ensures var r := Validate(v, input, env);
      r.Ok? ==> |r.value.errmsg| <= 1 && (r.value.errmsg != [] ==> r.value.value == input)
  {
    match v
    case FileOrDirListValidator =>
      if input.Arr? {
        ScanShape(input, input.items, 0, ItemCheck(env.probes, false));
      }
    case DirListValidator =>
      if input.Arr? {
        ScanShape(input, input.items, 0, ItemCheck(env.probes, true));
      }
    case FsaArrayValidator =>
      if input.Arr? {
        ScanShape(input, input.items, 0, FilesysCheck(input, env.probes));
      }
    case _ =>
  }

  /** A list passes a scan exactly when every item passes its check. */
  lemma {:induction false} ScanPasses(input: Value, items: seq<Value>, i: nat, check: Value -> Result<Option<Complaint>>)
    requires i <= |items|
    ensures ScanFrom(input, items, i, check) == Pass(input) <==> forall k | i <= k < |items| :: check(items[k]) == Ok(None)
    decreases |items| - i
  {
    if i < |items| {
      ScanPasses(input, items, i + 1, check);
    }
  }

  /** `IntegerValidator` accepts a string exactly when it is the canonical text of an
      integer and accepts every integer; it never converts the value. `nil` is refused,
      and booleans, arrays and hashes raise, having no `to_i`. */
  lemma IntegerValidatorAccepts(input: Value, env: Env)
    ensures var r := Validate(IntegerValidator, input, env);
      && (input.Str? ==> (r == Pass(input) <==> ParseCanonicalInt(input.s).Some?))
      && (input.Int? ==> r == Pass(input))
      && (input.Nil? ==> r == Fail(input, NotAnInteger(input)))
      && (r.Err? <==> input.Bool? || input.Arr? || input.Hash?)
      && (r.Ok? ==> r.value.value == input)
  {
    if input.Str? {
      IntegerTextRoundTrip(input.s);
    }
    if input.Nil? {
      assert IntToString(0) == "0";
    }
  }

  /** `DayOfMonthValidator` accepts exactly the integers 1 to 31. */
  lemma DayOfMonthValidatorAccepts(input: Value, env: Env)
    ensures var r := Validate(DayOfMonthValidator, input, env);
      r.Ok? && r.value.value == input && (r.value.errmsg == [] <==> input.Int? && 1 <= input.i <= 31)
  {
  }

  /** `DayOfWeekValidator` turns a day name into the weekday number `Date#wday` uses
      (Sunday 0 to Saturday 6), and raises on anything else. */
  lemma DayOfWeekValidatorNumbers(input: Value, env: Env)
    ensures var r := Validate(DayOfWeekValidator, input, env);
      && (r.Ok? <==> input.Str? && input.s in DayNames)
      && (r.Ok? ==> r.value.errmsg == [] && r.value.value.Int? && 0 <= r.value.value.i < 7
                    && DayAbbreviations[r.value.value.i] == input.s)
  {
  }

  /** Every size `<digits>M` or `<digits>G` passes `ByteSizeValidator`. */
  lemma ByteSizeValidatorAccepts(n: nat, unit: char, env: Env)
    requires unit == 'M' || unit == 'G'
    ensures Validate(ByteSizeValidator, Str(NatToString(n) + [unit]), env) == Pass(Str(NatToString(n) + [unit]))
  {
    var s := NatToString(n) + [unit];
    assert s[..|s| - 1] == NatToString(n);
    assert ByteSizeText(s);
    SplitOnFree(s, '\n');
    assert Lines(s)[0] == s;
  }

  /** On a one-line string, each pattern validator passes exactly when the whole string
      matches its pattern, and otherwise pushes its one message. */
  lemma PatternValidatorsOnOneLine(s: string, env: Env)
    requires '\n' !in s
    ensures Validate(ByteSizeValidator, Str(s), env) ==
              if ByteSizeText(s) then Pass(Str(s)) else Fail(Str(s), NotASize(Str(s)))
    ensures Validate(AwsRegionValidator, Str(s), env) ==
              if AwsRegionText(s) then Pass(Str(s)) else Fail(Str(s), NotARegion)
    ensures Validate(AwsAccessKeyPublicValidator, Str(s), env) ==
              if AccessKeyPublicText(s) then Pass(Str(s)) else Fail(Str(s), NotAPublicKey)
    ensures Validate(AwsAccessKeySecretValidator, Str(s), env) ==
              if AccessKeySecretText(s) then Pass(Str(s)) else Fail(Str(s), NotASecretKey)
  {
    SomeLineOfOneLine(s, ByteSizeText);
    SomeLineOfOneLine(s, AwsRegionText);
    SomeLineOfOneLine(s, AccessKeyPublicText);
    SomeLineOfOneLine(s, AccessKeySecretText);
  }

  /** The five validators that match a pattern raise on a value other than a string or
      `nil`, and push their message for `nil`. */
  lemma PatternValidatorsOnOtherValues(input: Value, env: Env)
    requires !input.Str?
    ensures var vs := [ByteSizeValidator, AwsRegionValidator, AwsAccessKeyPublicValidator,
                       AwsAccessKeySecretValidator, EmailAddressValidator];
      forall k | 0 <= k < |vs| ::
        && (input.Nil? <==> Validate(vs[k], input, env).Ok?)
        && (input.Nil? ==> |Validate(vs[k], input, env).value.errmsg| == 1)
        && (!input.Nil? ==> Validate(vs[k], input, env) == Err(NoMatchMethod(input)))
  {
  }

  /** Ruby's `^` and `$` match at line boundaries, so a value whose first line is a size
      passes `ByteSizeValidator` whatever its further lines hold. */
  lemma ByteSizeOnFirstLine(n: nat, unit: char, rest: string, env: Env)
    requires unit == 'M' || unit == 'G'
    ensures var s := NatToString(n) + [unit] + ['\n'] + rest;
      Validate(ByteSizeValidator, Str(s), env) == Pass(Str(s))
  {
    var first := NatToString(n) + [unit];
    assert first[..|first| - 1] == NatToString(n);
    assert ByteSizeText(first);
    SplitOnAt(first, rest, '\n');
    var s := first + ['\n'] + rest;
    assert Lines(s)[0] == first;
    assert LineMatches(Str(s), ByteSizeText);
  }

  /** The resource category each reference validator consults. */
  function ReferenceKind(v: Validator): Option<ResourceKind>
  {
    match v
    case AwsAccessKeyReferenceValidator => Some(AccessKeys)
    case ScheduleTypeValidator => Some(Schedules)
    case SesMediaValidator => Some(SesMedias)
    case S3BucketReferenceValidator => Some(S3Buckets)
    case _ => None
  }

  /** A reference validator substitutes the resource the name refers to, and fails when
      the category was not loaded or holds no such name. */
  lemma ReferenceSubstitutes(v: Validator, input: Value, env: Env)
    requires ReferenceKind(v).Some?
    ensures var r := Validate(v, input, env);
      var cat := Category(env, CategoryName(ReferenceKind(v).value));
      && r.Ok?
      && (r.value.errmsg == [] <==> cat.Some? && input.Str? && Truthy(FetchOrNil(cat.value, input.s)))
      && (r.value.errmsg == [] ==> r.value.value == FetchOrNil(cat.value, input.s))
      && (cat.None? ==> r == Fail(input, NoCategory(ReferenceKind(v).value)))
  {
  }

  /** What a filesystem description must be for `FsaArrayValidator`: a hash with no key
      but `block_device`, `snapshot_type` and `snapshot_size`, whose `block_device` is an
      existing block device, whose `snapshot_type`, if set, is `lvm`, and whose
      `snapshot_size`, if set, is a size. */
  predicate GoodFilesys(filesys: Value, p: Probes)
  {
    && filesys.Hash?
    && (forall k | 0 <= k < |filesys.pairs| :: filesys.pairs[k].0 in FsDevSupportedKeys)
    && FetchOrNil(filesys.pairs, "block_device").Str?
    && p.fileExists(FetchOrNil(filesys.pairs, "block_device").s)
    && p.isBlockDevice(FetchOrNil(filesys.pairs, "block_device").s)
    && (FetchOrNil(filesys.pairs, "snapshot_type") == Nil || FetchOrNil(filesys.pairs, "snapshot_type") == Str("lvm"))
    && (FetchOrNil(filesys.pairs, "snapshot_size") == Nil || LineMatches(FetchOrNil(filesys.pairs, "snapshot_size"), ByteSizeText))
  }

  lemma FilesysComplaintNone(input: Value, filesys: Value, p: Probes)
    ensures FilesysComplaint(input, filesys, p) == Ok(None) <==> GoodFilesys(filesys, p)
  {
    if filesys.Hash? {
      var u := FirstUnexpectedKey(filesys.pairs);
      assert u.None? <==> forall k | 0 <= k < |filesys.pairs| :: filesys.pairs[k].0 in FsDevSupportedKeys;
    }
  }

  /** `FsaArrayValidator` accepts exactly an array of good filesystem descriptions. */
  lemma FsaArrayValidatorAccepts(input: Value, env: Env)
    ensures Validate(FsaArrayValidator, input, env) == Pass(input) <==>
              input.Arr? && forall k | 0 <= k < |input.items| :: GoodFilesys(input.items[k], env.probes)
  {
    if input.Arr? {
      ScanPasses(input, input.items, 0, FilesysCheck(input, env.probes));
      forall k | 0 <= k < |input.items|
        ensures FilesysCheck(input, env.probes)(input.items[k]) == Ok(None) <==> GoodFilesys(input.items[k], env.probes)
      {
        FilesysComplaintNone(input, input.items[k], env.probes);
      }
    }
  }

  /** `DirListValidator` accepts exactly an array of existing directories, and
      `FileOrDirListValidator` exactly an array of existing files or directories. */
  lemma ListValidatorAccepts(input: Value, env: Env, dirOnly: bool)
    ensures var p := env.probes;
      Validate(if dirOnly then DirListValidator else FileOrDirListValidator, input, env) == Pass(input) <==>
        input.Arr? && forall k | 0 <= k < |input.items| ::
          input.items[k].Str? && (p.isDirectory(input.items[k].s) || (!dirOnly && p.fileExists(input.items[k].s)))
  {
    if input.Arr? {
      ScanPasses(input, input.items, 0, ItemCheck(env.probes, dirOnly));
    }
  }
}
