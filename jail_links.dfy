/** Symbolic links met while populating a jail: where a link's target lands
    inside the jail (`handle_symlink_dst`), and the table of directory links
    that lets a second hard link to an already copied file be accepted
    (`x_link_eexist_ok`). */
module JailLinks {
  import opened Util

  /** The search limit of `rfind(c, s.length() - 2)`: when the length is
      below 2 the unsigned subtraction wraps and the whole string is searched. */
  function Limit(s: string): (l: int)
    ensures -1 <= l < |s|
    ensures |s| >= 2 ==> l == |s| - 2
  {
    if |s| >= 2 then |s| - 2 else |s| - 1
  }

  /** A relative link target that climbs one directory. */
  predicate ClimbsUp(lnk: string) {
    |lnk| > 3 && lnk[0] == '.' && lnk[1] == '.' && lnk[2] == '/'
  }

  /** The relative case: drop the last component of `src` and `dst` (the
      link itself) and one more for each leading `../`; give up at the root
      of `src`, or when the cut on `dst` would fall inside `dstroot`. */
  function Climb(dstroot: string, src: string, dst: string, lnk: string): Option<(string, string)>
    decreases |src|
  {
    if |src| == 1 then None
    else
      match (RFind(src, '/', Limit(src)), RFind(dst, '/', Limit(dst)))
      case (Some(ss), Some(ds)) =>
        if ds < |dstroot| then None
        else if ClimbsUp(lnk) then Climb(dstroot, src[..ss + 1], dst[..ds + 1], lnk[3..])
        else Some((src[..ss + 1] + lnk, dst[..ds + 1] + lnk))
      case _ => None
  }

  /** Where the link at `src` (copied to `dst`) with target `lnk` points,
      outside and inside the jail; `None` when the code gives up. */
  function Resolve(dstroot: string, src: string, dst: string, lnk: string): Option<(string, string)> {
    if |lnk| > 0 && lnk[0] == '/' then Some((lnk, dstroot + lnk))
    else Climb(dstroot, src, dst, lnk)
  }

  /** `(s, d)` is a directory prefix of `src` and of `dst` (the latter
      ending past `dstroot`), each followed by the same tail of `lnk`. */
  predicate ClimbedTo(dstroot: string, src: string, dst: string, lnk: string, s: string, d: string) {
    exists i, j, k :: 0 < i < |src| && |dstroot| < j <= |dst| && 0 <= k <= |lnk|
      && src[i - 1] == '/' && dst[j - 1] == '/'
      && s == src[..i] + lnk[k..] && d == dst[..j] + lnk[k..]
  }

  /** A relative target resolves to a directory prefix of the link's path
      followed by what is left of the target after its `../` steps, in both
      trees alike; the destination prefix always ends past `dstroot` at a
      slash. */
  lemma {:induction false} ClimbShape(dstroot: string, src: string, dst: string, lnk: string, s: string, d: string)
    requires Climb(dstroot, src, dst, lnk) == Some((s, d))
    ensures ClimbedTo(dstroot, src, dst, lnk, s, d)
    decreases |src|
  {
    var rs, rd := RFind(src, '/', Limit(src)), RFind(dst, '/', Limit(dst));
    assert |src| != 1 && rs.Some? && rd.Some? && rd.value >= |dstroot|;
    var ss, ds := rs.value, rd.value;
    var src', dst' := src[..ss + 1], dst[..ds + 1];
    if ClimbsUp(lnk) {
      assert Climb(dstroot, src', dst', lnk[3..]) == Some((s, d));
      ClimbShape(dstroot, src', dst', lnk[3..], s, d);
      ClimbedFurther(dstroot, src, dst, lnk, s, d, ss + 1, ds + 1);
    } else {
      assert s == src' + lnk && d == dst' + lnk;
      assert lnk[0..] == lnk;
      ClimbedWitness(dstroot, src, dst, lnk, s, d, ss + 1, ds + 1, 0);
    }
  }

  /** One `../` step keeps the shape: a prefix of a prefix is a prefix, and
      a tail of the shortened target is a tail of the target. */
  lemma ClimbedFurther(dstroot: string, src: string, dst: string, lnk: string, s: string, d: string, m: int, n: int)
    requires 0 < m <= |src| && 0 < n <= |dst| && 3 <= |lnk|
    requires ClimbedTo(dstroot, src[..m], dst[..n], lnk[3..], s, d)
    ensures ClimbedTo(dstroot, src, dst, lnk, s, d)
  {
    var src', dst', lnk' := src[..m], dst[..n], lnk[3..];
    var i, j, k :| 0 < i < |src'| && |dstroot| < j <= |dst'| && 0 <= k <= |lnk'|
      && src'[i - 1] == '/' && dst'[j - 1] == '/'
      && s == src'[..i] + lnk'[k..] && d == dst'[..j] + lnk'[k..];
    assert src'[..i] == src[..i] && dst'[..j] == dst[..j] && lnk'[k..] == lnk[k + 3..];
    ClimbedWitness(dstroot, src, dst, lnk, s, d, i, j, k + 3);
  }

  lemma ClimbedWitness(dstroot: string, src: string, dst: string, lnk: string, s: string, d: string, i: int, j: int, k: int)
    requires 0 < i < |src| && |dstroot| < j <= |dst| && 0 <= k <= |lnk|
    requires src[i - 1] == '/' && dst[j - 1] == '/'
    requires s == src[..i] + lnk[k..] && d == dst[..j] + lnk[k..]
    ensures ClimbedTo(dstroot, src, dst, lnk, s, d)
  {
  }

  /** A resolved destination still starts with the jail root followed by
      `/` whenever the link's destination did; `..` components in the
      target's tail are not resolved. */
  lemma ResolveStaysInJail(dstroot: string, src: string, dst: string, lnk: string)
    requires dstroot + "/" <= dst
    ensures match Resolve(dstroot, src, dst, lnk)
      case None => true
      case Some((_, d)) => dstroot + "/" <= d
  {
    if !(|lnk| > 0 && lnk[0] == '/') {
      match Climb(dstroot, src, dst, lnk)
      case None =>
      case Some((s, d)) =>
        ClimbShape(dstroot, src, dst, lnk, s, d);
        ClimbedKeepsRoot(dstroot, src, dst, lnk, s, d);
    }
  }

  /** A destination cut past `dstroot` keeps the first `|dstroot| + 1`
      characters of `dst`. */
  lemma ClimbedKeepsRoot(dstroot: string, src: string, dst: string, lnk: string, s: string, d: string)
    requires dstroot + "/" <= dst
    requires ClimbedTo(dstroot, src, dst, lnk, s, d)
    ensures dstroot + "/" <= d
  {
    var i, j, k :| 0 < i < |src| && |dstroot| < j <= |dst| && 0 <= k <= |lnk|
      && src[i - 1] == '/' && dst[j - 1] == '/'
      && s == src[..i] + lnk[k..] && d == dst[..j] + lnk[k..];
    assert d[..|dstroot| + 1] == dst[..|dstroot| + 1];
  }

  /** `dst` is inside the jail's `/proc`, which is mounted, never copied. */
  predicate UnderProc(dstroot: string, dst: string) {
    |dst| >= |dstroot| + 6 && dst[|dstroot|..|dstroot| + 6] == "/proc/"
  }

  /** `handle_symlink_dst` up to the copy it asks for: the resolved pair,
      or nothing when it gives up or the target is under `/proc/`. */
  method HandleSymlinkDst(dstroot: string, src: string, dst: string, lnk: string)
    returns (copy: Option<(string, string)>)
    ensures copy.Some? <==> Resolve(dstroot, src, dst, lnk).Some? && !UnderProc(dstroot, Resolve(dstroot, src, dst, lnk).value.1)
    ensures copy.Some? ==> copy == Resolve(dstroot, src, dst, lnk)
  {
    var s, d, l := src, dst, lnk;
    if |l| > 0 && l[0] == '/' {
      s := l;
      d := dstroot + l;
    } else {
      while true
        invariant Climb(dstroot, s, d, l) == Resolve(dstroot, src, dst, lnk)
        decreases |s|
      {
        if |s| == 1 {
          return None;
        }
        var srcslash := RFind(s, '/', Limit(s));
        var dstslash := RFind(d, '/', Limit(d));
        if srcslash.None? || dstslash.None? || dstslash.value < |dstroot| {
          return None;
        }
        s := s[..srcslash.value + 1];
        d := d[..dstslash.value + 1];
        if ClimbsUp(l) {
          l := l[3..];
        } else {
          break;
        }
      }
      s := s + l;
      d := d + l;
    }
    if UnderProc(dstroot, d) {
      return None;
    }
    copy := Some((s, d));
  }

  /** The tables the copy keeps: `dst_table`, the destinations already
      created, and `lnk_table`, a multimap linking each directory reached
      through a symbolic link with the link's own path, both ways round. */
  class LinkTables {
    var dsts: set<string>
    var lnk: map<string, seq<string>>

    constructor ()
      ensures dsts == {} && lnk == map[]
    {
      dsts := {};
      lnk := map[];
    }

    /** The values of `key` in the multimap, in insertion order. */
    function Aliases(key: string): seq<string>
      reads this
    {
      if key in lnk then lnk[key] else []
    }

    /** Records a created destination. */
    method AddDst(path: string)
      modifies this
      ensures dsts == old(dsts) + {path} && lnk == old(lnk)
    {
      dsts := dsts + {path};
    }

    /** Records a directory reached through a link: `dst` is where the
        target landed and `lnkin` where the link itself was copied. */
    method AddDirLink(dst: string, lnkin: string)
      modifies this
      ensures dsts == old(dsts)
      ensures Aliases(dst) == old(Aliases(dst)) + (if dst == lnkin then [lnkin, dst] else [lnkin])
      ensures dst != lnkin ==> Aliases(lnkin) == old(Aliases(lnkin)) + [dst]
      ensures forall k :: k != dst && k != lnkin ==> Aliases(k) == old(Aliases(k))
    {
      lnk := lnk[dst := Aliases(dst) + [lnkin]];
      lnk := lnk[lnkin := Aliases(lnkin) + [dst]];
    }

    /** The directory of `path` up to the slash at `i` has an alias under
        which the rest of `path` was already created. */
    predicate AliasedAt(path: string, i: int)
      reads this
    {
      0 <= i < |path| && path[i] == '/'
      && exists t :: t in Aliases(path[..i]) && t + path[i..] in dsts
    }

    /** `x_link_eexist_ok`: whether `newpath` already exists under another
        name, through a directory link at any of its slashes. */
    method LinkEexistOk(newpath: string) returns (ok: bool)
      ensures ok <==> exists i :: AliasedAt(newpath, i)
    {
      var limit: int := |newpath| - 1;
      while limit >= 0
        invariant -1 <= limit < |newpath|
        invariant forall i :: limit < i ==> !AliasedAt(newpath, i)
        decreases limit + 1
      {
        var slash := RFind(newpath, '/', limit);
        if slash.None? {
          break;
        }
        var sl := slash.value;
        var dstdir := newpath[..sl];
        var aliases := Aliases(dstdir);
        for j := 0 to |aliases|
          invariant forall j' :: 0 <= j' < j ==> aliases[j'] + newpath[sl..] !in dsts
        {
          if aliases[j] + newpath[sl..] in dsts {
            assert AliasedAt(newpath, sl);
            return true;
          }
        }
        limit := sl as int - 1;
      }
      return false;
    }
  }
}
