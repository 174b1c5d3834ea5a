/** The jail description read by `construct_jail`: one entry per line,
    `DIR:` lines that set the current directory, optional `[FLAGS]`, and
    `NAME <- SRC` renames. Each entry line becomes one copy request. */
module JailFile {
  import opened Util

  /** A copy request: source path, destination path, whether missing
      parent directories are created (lines starting with `/`), and `[cp]`. */
  datatype Copy = Copy(src: string, dst: string, parents: bool, cp: bool)

  /** `s` without its trailing spaces. */
  function TrimEnd(s: string): (r: string)
    ensures |r| <= |s| && r == s[..|r|]
    ensures r == [] || !IsSpace(r[|r| - 1])
    ensures forall i :: |r| <= i < |s| ==> IsSpace(s[i])
  {
    if |s| > 0 && IsSpace(s[|s| - 1]) then TrimEnd(s[..|s| - 1]) else s
  }

  /** A current source directory: starts and ends with one `/`. */
  predicate DirShape(d: string) {
    |d| > 0 && d[0] == '/' && d[|d| - 1] == '/' && !(|d| >= 2 && d[|d| - 2] == '/')
  }

  /** `s` with a run of trailing slashes reduced to one. */
  function CollapseTrail(s: string): (r: string)
    ensures 0 < |r| <= |s| || r == s == []
    ensures r == s[..|r|]
    ensures !(|r| >= 2 && r[|r| - 1] == '/' && r[|r| - 2] == '/')
    ensures |s| > 0 && s[|s| - 1] == '/' ==> r[|r| - 1] == '/'
    ensures forall i :: |r| <= i < |s| ==> s[i] == '/'
  {
    if |s| > 1 && s[|s| - 1] == '/' && s[|s| - 2] == '/' then CollapseTrail(s[..|s| - 1]) else s
  }

  /** The directory a trimmed `DIR:` line selects: `.` is the root, a leading
      `./` is dropped, a `/` is put in front when missing, and the end is
      exactly one `/`. */
  function SourceDir(t: string): (d: string)
    requires |t| > 0 && t[|t| - 1] == ':'
    ensures DirShape(d)
  {
    var body :=
      if |t| == 2 && t[0] == '.' then "/"
      else if |t| > 2 && t[0] == '.' && t[1] == '/' then t[1..|t| - 1]
      else t[..|t| - 1];
    var abs := if |body| == 0 || body[0] != '/' then "/" + body else body;
    var c := CollapseTrail(abs);
    if c[|c| - 1] != '/' then c + "/" else c
  }

  /** The three spellings of the root select the root. */
  lemma SourceDirRoot()
    ensures SourceDir(".:") == "/"
    ensures SourceDir("./:") == "/"
    ensures SourceDir(":") == "/"
  {
    assert CollapseTrail("/") == "/";
  }

  /** A leading `./` is dropped and the end gets its `/`. */
  lemma SourceDirRelative()
    ensures SourceDir("./lib:") == "/lib/"
  {
    var t := "./lib:";
    assert t[1..|t| - 1] == "/lib";
    assert CollapseTrail("/lib") == "/lib";
  }

  /** Trailing slashes collapse to one. */
  lemma SourceDirCollapses()
    ensures SourceDir("usr//:") == "/usr/"
  {
    var t := "usr//:";
    assert t[..|t| - 1] == "usr//";
    var u := "/usr//";
    assert "/" + "usr//" == u;
    assert CollapseTrail(u) == CollapseTrail(u[..5]);
    assert u[..5] == "/usr/";
    assert CollapseTrail("/usr/") == "/usr/";
  }

  /** Whether the `[FLAGS]` text from `from` holds `cp`: only the FIRST `cp`
      is looked at, and it must be bounded by `[` or `,` and by `]` or `,`. */
  function CpFlag(t: string, from: nat): bool
    requires 0 < from
  {
    match FindSub(t, "cp", from)
    case None => false
    case Some(j) =>
      (t[j - 1] == '[' || t[j - 1] == ',') && j + 2 < |t| && (t[j + 2] == ']' || t[j + 2] == ',')
  }

  /** A trimmed line ending in `]`: the name before the last `[` (spaces
      before it removed) and the `cp` flag, or nothing when there is no `[`. */
  function SplitFlags(t: string): (r: Option<(string, bool)>)
    requires |t| > 0 && t[|t| - 1] == ']'
    ensures r.None? <==> '[' !in t
    ensures r.Some? ==> |r.value.0| < |t| && r.value.0 == t[..|r.value.0|]
  {
    match RFind(t, '[', |t| - 2)
    case None => None
    case Some(o) => Some((TrimEnd(t[..o]), CpFlag(t, o + 1)))
  }

  /** An entry line whose flags are gone. */
  function EntryOf(cursrcdir: string, curdstdir: string, name: string, cp: bool): (c: Copy)
    ensures c.parents <==> |name| > 0 && name[0] == '/'
    ensures c.cp == cp
  {
    var abs := |name| > 0 && name[0] == '/';
    match FindSub(name, " <- ", 0)
    case Some(a) => Copy(name[a + 4..], curdstdir + name[..a], abs, cp)
    case None =>
      if abs then Copy(name, curdstdir + name, abs, cp)
      else Copy(cursrcdir + name, curdstdir + name, abs, cp)
  }

  /** How an entry maps to a copy: `NAME <- SRC` copies SRC to NAME in the
      current destination directory; `/abs` copies itself there; a plain
      relative NAME copies from the current source directory to the same
      place in the current destination directory. */
  lemma EntryOfMeans(cursrcdir: string, curdstdir: string, name: string, cp: bool)
    ensures var c := EntryOf(cursrcdir, curdstdir, name, cp);
      forall a: nat :: OccursAt(name, " <- ", a) && (forall k :: 0 <= k < a ==> !OccursAt(name, " <- ", k)) ==>
        c.src == name[a + 4..] && c.dst == curdstdir + name[..a]
    ensures var c := EntryOf(cursrcdir, curdstdir, name, cp);
      (forall k :: !OccursAt(name, " <- ", k)) ==>
        c.dst == curdstdir + name
        && c.src == (if c.parents then name else cursrcdir + name)
  {
    var c := EntryOf(cursrcdir, curdstdir, name, cp);
    match FindSub(name, " <- ", 0)
    case Some(a) =>
      forall a': nat | OccursAt(name, " <- ", a') && (forall k :: 0 <= k < a' ==> !OccursAt(name, " <- ", k))
        ensures c.src == name[a' + 4..] && c.dst == curdstdir + name[..a']
      {
        assert !(a < a') && !(a' < a);
      }
    case None =>
  }

  /** Only the first `cp` counts: `[cp]` and `[ro,cp]` set the flag, while
      `[cpio,cp]` does not. */
  lemma CpFlagExamples()
    ensures SplitFlags("x [cp]") == Some(("x", true))
    ensures SplitFlags("x[ro,cp]") == Some(("x", true))
    ensures SplitFlags("x [cpio,cp]") == Some(("x", false))
    ensures SplitFlags("x]") == None
  {
    var t1 := "x [cp]";
    assert RFind(t1, '[', 4) == Some(2);
    assert TrimEnd(t1[..2]) == "x" by { assert t1[..2] == "x "; assert TrimEnd("x") == "x"; }
    assert FindSub(t1, "cp", 3) == Some(3) by { assert t1[3..5] == "cp"; }
    var t2 := "x[ro,cp]";
    assert RFind(t2, '[', 6) == Some(1);
    assert t2[..1] == "x";
    assert FindSub(t2, "cp", 2) == Some(5) by {
      assert t2[2..4] != "cp" && t2[3..5] != "cp" && t2[4..6] != "cp" && t2[5..7] == "cp";
    }
    var t3 := "x [cpio,cp]";
    assert RFind(t3, '[', 9) == Some(2);
    assert TrimEnd(t3[..2]) == "x" by { assert t3[..2] == "x "; assert TrimEnd("x") == "x"; }
    assert FindSub(t3, "cp", 3) == Some(3) by { assert t3[3..5] == "cp"; }
  }

  /** `dstroot`: the jail directory without trailing slashes, unless it is `/`. */
  function DstRoot(jaildir: string): (r: string)
    ensures |jaildir| > 0 ==> |r| > 0
    ensures r == "/" || r == [] || r[|r| - 1] != '/'
  {
    StripSlashes(jaildir, 1)
  }

  /** Where entries before the first `DIR:` line go, as written: `dstroot`
      itself, with no `/` after it. */
  function InitialDstDirAsWritten(dstroot: string): string {
    dstroot
  }

  /** As written, a relative name before any `DIR:` line is glued to the
      jail root: in the jail `/jail`, the line `bin` copies `/bin` to
      `/jailbin`, outside the jail. */
  lemma InitialDstDirCounterexample()
    ensures EntryOf("/", InitialDstDirAsWritten(DstRoot("/jail")), "bin", false)
        == Copy("/bin", "/jailbin", false, false)
    ensures !(DstRoot("/jail") + "/" <= "/jailbin")
  {
    assert DstRoot("/jail") == "/jail";
    assert FindSub("bin", " <- ", 0) == None;
    assert "/jailbin"[5] == 'b';
  }

  /** The parser's state, carried from line to line. */
  class JailParser {
    var dstroot: string
    var cursrcdir: string
    var curdstdir: string
    /** The copies requested so far, in order. */
    var copies: seq<Copy>

    /** The destination directory is the source directory inside the jail,
        or, before any `DIR:` line when the parser started as written, the
        bare jail root. */
    predicate Valid()
      reads this
    {
      && DirShape(cursrcdir)
      && (curdstdir == dstroot + cursrcdir || (curdstdir == dstroot && cursrcdir == "/"))
    }

    /** Starts at the source root. The destination directory starts as the
        bare jail root, as written, or, when `corrected`, as the root inside
        the jail, as after a `.:` line. */
    constructor (jaildir: string, corrected: bool)
      ensures dstroot == DstRoot(jaildir)
      ensures cursrcdir == "/" && copies == []
      ensures curdstdir == if corrected then dstroot + "/" else InitialDstDirAsWritten(dstroot)
      ensures Valid()
    {
      var root := jaildir;
      while |root| > 1 && root[|root| - 1] == '/'
        invariant StripSlashes(root, 1) == StripSlashes(jaildir, 1)
      {
        root := root[..|root| - 1];
      }
      dstroot := root;
      cursrcdir := "/";
      curdstdir := if corrected then root + "/" else root;
      copies := [];
    }

    /** Reads one line (its newline included or not). */
    method ReadLine(buf: string)
      requires Valid()
      modifies this
      ensures Valid() && dstroot == old(dstroot)
      ensures curdstdir == if DirLine(buf) then dstroot + cursrcdir else old(curdstdir)
      ensures |copies| >= |old(copies)| && copies[..|old(copies)|] == old(copies)
      ensures old(curdstdir) == dstroot + old(cursrcdir) || !RelativeEntry(buf) ==>
        forall i :: |old(copies)| <= i < |copies| ==> dstroot + "/" <= copies[i].dst
      ensures var t := TrimEnd(buf);
        if t == [] then
          cursrcdir == old(cursrcdir) && copies == old(copies)
        else if t[|t| - 1] == ':' then
          cursrcdir == SourceDir(t) && copies == old(copies)
        else if t[|t| - 1] == ']' then
          cursrcdir == old(cursrcdir)
          && match SplitFlags(t)
             case None => copies == old(copies)
             case Some((name, cp)) => copies == old(copies) + [EntryOf(cursrcdir, curdstdir, name, cp)]
        else
          cursrcdir == old(cursrcdir) && copies == old(copies) + [EntryOf(cursrcdir, curdstdir, t, false)]
    {
      var t := Trimmed(buf);
      if |t| == 0 {
        return;
      }
      if t[|t| - 1] == ':' {
        var d := SourceDirOf(t);
        cursrcdir := d;
        curdstdir := dstroot + d;
        return;
      }
      var name, cp := t, false;
      if t[|t| - 1] == ']' {
        var split := SplitFlagsOf(t);
        if split.None? {
          return;
        }
        name, cp := split.value.0, split.value.1;
      }
      var c := EntryOf(cursrcdir, curdstdir, name, cp);
      if curdstdir == dstroot + cursrcdir {
        EntryUnderRoot(dstroot, cursrcdir, name, cp);
      } else if |name| > 0 && name[0] == '/' {
        AbsoluteUnderRoot(dstroot, name, cp);
      }
      copies := copies + [c];
    }

    /** Drops trailing spaces by moving the end of the line back. */
    static method Trimmed(buf: string) returns (t: string)
      ensures t == TrimEnd(buf)
    {
      var l := |buf|;
      while l > 0 && IsSpace(buf[l - 1])
        invariant 0 <= l <= |buf| && TrimEnd(buf[..l]) == TrimEnd(buf)
      {
        assert buf[..l][..l - 1] == buf[..l - 1];
        l := l - 1;
      }
      t := buf[..l];
    }

    /** The `[FLAGS]` branch: finds the last `[`, reads the flag and cuts the
        line back over the spaces before the `[`. */
    static method SplitFlagsOf(t: string) returns (r: Option<(string, bool)>)
      requires |t| > 0 && t[|t| - 1] == ']'
      ensures r == SplitFlags(t)
    {
      var l := |t| - 1;
      while l > 0 && t[l - 1] != '['
        invariant 0 <= l < |t|
        invariant forall k :: l <= k <= |t| - 2 ==> t[k] != '['
      {
        l := l - 1;
      }
      if l == 0 {
        return None;
      }
      assert RFind(t, '[', |t| - 2) == Some(l - 1);
      var cp := CpFlag(t, l);
      var name := Trimmed(t[..l - 1]);
      r := Some((name, cp));
    }

    /** The `DIR:` branch, normalising the directory in place. */
    static method SourceDirOf(t: string) returns (d: string)
      requires |t| > 0 && t[|t| - 1] == ':'
      ensures d == SourceDir(t)
    {
      var l := |t|;
      if l == 2 && t[0] == '.' {
        d := "/";
      } else if l > 2 && t[0] == '.' && t[1] == '/' {
        d := t[1..l - 1];
      } else {
        d := t[..l - 1];
      }
      if |d| == 0 || d[0] != '/' {
        d := "/" + d;
      }
      ghost var abs := d;
      while |d| > 1 && d[|d| - 1] == '/' && d[|d| - 2] == '/'
        invariant CollapseTrail(d) == CollapseTrail(abs)
      {
        d := d[..|d| - 1];
      }
      if d[|d| - 1] != '/' {
        d := d + "/";
      }
    }
  }

  /** An entry read in a source directory gets a destination that starts
      with the jail root followed by `/`. */
  lemma EntryUnderRoot(dstroot: string, cursrcdir: string, name: string, cp: bool)
    requires DirShape(cursrcdir)
    ensures dstroot + "/" <= EntryOf(cursrcdir, dstroot + cursrcdir, name, cp).dst
  {
    var curdstdir := dstroot + cursrcdir;
    assert curdstdir == dstroot + "/" + cursrcdir[1..];
  }

  /** With the bare jail root as destination directory, an absolute entry
      still gets a destination that starts with the root followed by `/`. */
  lemma AbsoluteUnderRoot(dstroot: string, name: string, cp: bool)
    requires |name| > 0 && name[0] == '/'
    ensures dstroot + "/" <= EntryOf("/", dstroot, name, cp).dst
  {
    match FindSub(name, " <- ", 0)
    case Some(a) =>
      assert name[a] == ' ' by { assert name[a..a + 4][0] == name[a]; }
      assert (dstroot + name[..a])[..|dstroot| + 1] == dstroot + "/";
    case None =>
      assert (dstroot + name)[..|dstroot| + 1] == dstroot + "/";
  }

  /** A line that selects a directory. */
  predicate DirLine(buf: string) {
    var t := TrimEnd(buf);
    t != [] && t[|t| - 1] == ':'
  }

  /** A line that requests a copy under a relative name. */
  predicate RelativeEntry(buf: string) {
    var t := TrimEnd(buf);
    && t != [] && t[|t| - 1] != ':'
    && if t[|t| - 1] == ']' then
         match SplitFlags(t)
         case None => false
         case Some((name, _)) => !(|name| > 0 && name[0] == '/')
       else t[0] != '/'
  }

  /** Every relative entry comes after some `DIR:` line. */
  predicate DirBeforeRelative(lines: seq<string>) {
    forall n :: 0 <= n < |lines| && RelativeEntry(lines[n]) ==>
      exists m :: 0 <= m < n && DirLine(lines[m])
  }

  /** `construct_jail` over the lines of a jail description. Every copy's
      destination starts with the jail root followed by `/` when the parser
      starts with the corrected destination directory, and, with the start
      as written, when every relative entry follows a `DIR:` line. Names are
      not checked for `..` components. */
  method ConstructJail(jaildir: string, lines: seq<string>, corrected: bool) returns (copies: seq<Copy>)
    ensures corrected || DirBeforeRelative(lines) ==>
      forall i :: 0 <= i < |copies| ==> DstRoot(jaildir) + "/" <= copies[i].dst
  {
    var p := new JailParser(jaildir, corrected);
    for n := 0 to |lines|
      invariant p.Valid() && p.dstroot == DstRoot(jaildir)
      invariant p.curdstdir == p.dstroot + p.cursrcdir || forall m :: 0 <= m < n ==> !DirLine(lines[m])
      invariant corrected ==> p.curdstdir == p.dstroot + p.cursrcdir
      invariant corrected || DirBeforeRelative(lines) ==>
        forall i :: 0 <= i < |p.copies| ==> p.dstroot + "/" <= p.copies[i].dst
    {
      ghost var before := p.copies;
      p.ReadLine(lines[n]);
      assert forall i :: 0 <= i < |before| ==> p.copies[i] == before[i];
    }
    copies := p.copies;
  }

  /** Names are not checked for `..`: in the jail `/jail`, after a `.:`
      line, the line `../../etc/x` asks for the destination
      `/jail/../../etc/x`, which starts with the root and `/` but names a
      path outside the jail once `..` is resolved. */
  lemma ParentNotChecked()
    ensures EntryOf("/", "/jail/", "../../etc/x", false).dst == "/jail/../../etc/x"
  {
    NotFound("../../etc/x", " <- ", 0);
    assert "/jail/" + "../../etc/x" == "/jail/../../etc/x";
  }

  /** The corrected start changes absolute entries before the first `DIR:`
      line: as written `/bin/sh` goes to `/jail/bin/sh`; with the corrected
      start to `/jail//bin/sh`, the form every absolute entry gets after a
      `.:` line. The destination tables compare such paths as strings. */
  lemma CorrectedStartAbsolute()
    ensures EntryOf("/", InitialDstDirAsWritten("/jail"), "/bin/sh", false).dst == "/jail/bin/sh"
    ensures EntryOf("/", "/jail/", "/bin/sh", false).dst == "/jail//bin/sh"
  {
    NotFound("/bin/sh", " <- ", 0);
    assert "/jail" + "/bin/sh" == "/jail/bin/sh";
    assert "/jail/" + "/bin/sh" == "/jail//bin/sh";
  }

  /** With the root directory as start, a plain relative entry is copied to
      the same path inside the jail. */
  lemma RelativeEntryMirrors(dstroot: string, cursrcdir: string, name: string)
    requires forall k :: !OccursAt(name, " <- ", k)
    requires |name| > 0 && name[0] != '/'
    ensures EntryOf(cursrcdir, dstroot + cursrcdir, name, false).dst
         == dstroot + EntryOf(cursrcdir, dstroot + cursrcdir, name, false).src
  {
    EntryOfMeans(cursrcdir, dstroot + cursrcdir, name, false);
  }
}
