/** The jail helper's name checks: which path names `check_filename` accepts
    and which mounts `allow_mount` carries into a jail. */
module JailNames {
  import opened Util

  /** A character of the `allowed_chars` table; `/` only when slashes are allowed. */
  predicate AllowedChar(c: char, allowSlash: bool) {
    ('0' <= c <= '9') || ('A' <= c <= 'Z') || ('a' <= c <= 'z')
    || c == '-' || c == '.' || c == '_' || c == '~'
    || (allowSlash && c == '/')
  }

  /** A `..` path component starts at `i`: at the start or after a slash,
      and followed by the end or a slash. */
  predicate DotDotAt(name: string, i: nat) {
    && OccursAt(name, "..", i)
    && (i == 0 || name[i - 1] == '/')
    && (i + 2 == |name| || name[i + 2] == '/')
  }

  /** The `strstr` loop of `check_filename`: from `from`, find the next `..`,
      test it, and carry on after it. */
  function ScanDotDot(name: string, from: nat): bool
    decreases |name| - from
  {
    match FindSub(name, "..", from)
    case None => false
    case Some(j) => DotDotAt(name, j) || ScanDotDot(name, j + 2)
  }

  /** The scan finds exactly the `..` components from `from` on, when `from`
      does not start just after a slash (so nothing is skipped). */
  lemma {:induction false} ScanFindsComponents(name: string, from: nat)
    requires from == 0 || (from <= |name| && name[from - 1] != '/')
    ensures ScanDotDot(name, from) <==> exists i :: from <= i && DotDotAt(name, i)
    decreases |name| - from
  {
    match FindSub(name, "..", from)
    case None =>
      forall i | from <= i ensures !DotDotAt(name, i) {
      }
    case Some(j) =>
      if !DotDotAt(name, j) {
        SkippedNoComponent(name, from, j);
        ScanFindsComponents(name, j + 2);
      }
  }

  /** A `..` at `j`, the first from `from`, that is not a component leaves
      no component before `j + 2`, and the scan may go on after it. */
  lemma SkippedNoComponent(name: string, from: nat, j: nat)
    requires from <= j && OccursAt(name, "..", j) && !DotDotAt(name, j)
    requires forall k :: from <= k < j ==> !OccursAt(name, "..", k)
    ensures name[j + 1] == '.'
    ensures forall i :: from <= i < j + 2 ==> !DotDotAt(name, i)
  {
    assert name[j] == '.' && name[j + 1] == '.' by {
      assert name[j..j + 2][0] == name[j] && name[j..j + 2][1] == name[j + 1];
    }
  }

  /** `check_filename`: 1 exactly when this holds. */
  function CheckFilename(name: string, allowSlash: bool, allowAbsolute: bool): bool {
    if exists i :: 0 <= i < |name| && !AllowedChar(name[i], allowSlash) then false
    else if |name| > 0 && name[0] == '~' then false
    else if ScanDotDot(name, 0) then false
    else if !allowAbsolute && |name| > 0 && name[0] == '/' then false
    else if |name| >= 1024 then false
    else true
  }

  /** The conditions `check_filename` enforces, each on its own. */
  lemma CheckFilenameMeans(name: string, allowSlash: bool, allowAbsolute: bool)
    ensures CheckFilename(name, allowSlash, allowAbsolute) <==>
      && (forall i :: 0 <= i < |name| ==> AllowedChar(name[i], allowSlash))
      && (|name| > 0 ==> name[0] != '~')
      && (forall i :: !DotDotAt(name, i))
      && (!allowAbsolute && |name| > 0 ==> name[0] != '/')
      && |name| < 1024
  {
    ScanFindsComponents(name, 0);
  }

  /** No accepted name climbs out of its directory. */
  lemma AcceptedHasNoParent(name: string, allowSlash: bool, allowAbsolute: bool, i: nat)
    requires CheckFilename(name, allowSlash, allowAbsolute)
    ensures !DotDotAt(name, i)
  {
    CheckFilenameMeans(name, allowSlash, allowAbsolute);
  }

  /** The empty name passes; `...` and `a..b` are ordinary names. */
  lemma CheckFilenameAccepts()
    ensures CheckFilename("", false, false)
    ensures CheckFilename("...", false, false)
    ensures CheckFilename("a..b", false, false)
  {
    assert !DotDotAt("...", 0) && !DotDotAt("...", 1);
    CheckFilenameMeans("...", false, false);
    assert !DotDotAt("a..b", 1);
    CheckFilenameMeans("a..b", false, false);
  }

  /** `..` as a whole name, as the last component or as the first is refused. */
  lemma CheckFilenameRefusesParent()
    ensures !CheckFilename("..", true, true)
    ensures !CheckFilename("a/..", true, true)
    ensures !CheckFilename("../a", true, true)
  {
    assert DotDotAt("..", 0);
    CheckFilenameMeans("..", true, true);
    assert DotDotAt("a/..", 2);
    CheckFilenameMeans("a/..", true, true);
    assert DotDotAt("../a", 0);
    CheckFilenameMeans("../a", true, true);
  }

  /** An absolute name needs both permissions; a leading `~` is refused. */
  lemma CheckFilenameAbsolute()
    ensures !CheckFilename("/a", true, false) && !CheckFilename("/a", false, true)
    ensures CheckFilename("/a", true, true)
    ensures !CheckFilename("~a", true, true)
  {
    assert !AllowedChar("/a"[0], false);
    assert forall i :: !DotDotAt("/a", i);
    CheckFilenameMeans("/a", true, true);
  }

  /** `allow_mount`: the four pseudo-file-systems a jail may mount. */
  predicate AllowMount(dest: string, fsType: string) {
    || (dest == "/proc" && fsType == "proc")
    || (dest == "/sys" && fsType == "sysfs")
    || (dest == "/dev" && fsType == "udev")
    || (dest == "/dev/pts" && fsType == "devpts")
  }

  /** Only four destinations are mountable, each with exactly one type. */
  lemma AllowMountUnique(dest: string, t1: string, t2: string)
    requires AllowMount(dest, t1) && AllowMount(dest, t2)
    ensures t1 == t2
    ensures dest in {"/proc", "/sys", "/dev", "/dev/pts"}
  {
  }
}
