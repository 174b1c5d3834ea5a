/**
 * The reviewer activity feed: two descending streams (comments and reviews)
 * are paged from their tables with a resume cursor, filtered per viewer and
 * merged into one list of at most `limit` items.
 *
 * The tables are abstracted as fixed sequences of rows that already satisfy
 * every WHERE condition that does not depend on the cursor; a fetch returns
 * the first `limit` of them that the cursor admits. The per-viewer checks are
 * the parameters `canViewComment` and `canViewReview`.
 */
module Activity {
  import opened Util

  /** A fetched row. Comment rows carry `timeModified`; review rows carry
      `reviewSubmitted` and no `timeModified`. `id` is the comment or review id. */
  datatype Row = Row(timeModified: Option<int>, reviewSubmitted: int,
                     contactId: int, paperId: int, id: int)

  /** A feed entry: the row and the `isComment` tag set when it is emitted. */
  datatype Item = Item(row: Row, isComment: bool)

  /** The time the comparator sorts by. */
  function SortTime(r: Row): int {
    if r.timeModified.Some? then r.timeModified.value else r.reviewSubmitted
  }

  // ---------------------------------------------------------------------
  // The row comparator

  /** `_activity_compar`: negative when `a` comes first in the feed. */
  function Compare(a: Option<Row>, b: Option<Row>): (r: int)
    ensures -1 <= r <= 1
  {
    if a.None? || b.None? then
      (if a.None? && b.None? then 0 else if a.Some? then -1 else 1)
    else
      var at, bt := SortTime(a.value), SortTime(b.value);
      if at != bt then (if at > bt then -1 else 1)
      else if a.value.contactId != b.value.contactId then
        (if a.value.contactId < b.value.contactId then -1 else 1)
      else if a.value.paperId != b.value.paperId then
        (if a.value.paperId < b.value.paperId then -1 else 1)
      else 0
  }

  /** `x` is strictly more recent than `y` in feed order. */
  predicate Before(x: Row, y: Row) {
    Compare(Some(x), Some(y)) < 0
  }

  /** The sort key of a row: the triple the cursors are made of. */
  function Key(r: Row): (int, int, int) {
    (SortTime(r), r.contactId, r.paperId)
  }

  /** The comparator orders by time descending, then contact id and paper id
      ascending; a missing row comes after any row and two missing rows tie. */
  lemma {:induction false} CompareOrder(a: Option<Row>, b: Option<Row>)
    ensures Compare(a, b) == -Compare(b, a)
    ensures Compare(a, b) == 0 <==> (a.None? && b.None?) || (a.Some? && b.Some? && Key(a.value) == Key(b.value))
    ensures a.Some? && b.None? ==> Compare(a, b) == -1
    ensures a.Some? && b.Some? ==>
      (Compare(a, b) < 0 <==>
        SortTime(a.value) > SortTime(b.value)
        || (SortTime(a.value) == SortTime(b.value) && a.value.contactId < b.value.contactId)
        || (SortTime(a.value) == SortTime(b.value) && a.value.contactId == b.value.contactId
            && a.value.paperId < b.value.paperId))
  {
  }

  /** Feed order is transitive, also through ties. */
  lemma {:induction false} CompareTransitive(x: Row, y: Row, z: Row)
    ensures Compare(Some(x), Some(y)) <= 0 && Compare(Some(y), Some(z)) <= 0 ==> Compare(Some(x), Some(z)) <= 0
    ensures Compare(Some(x), Some(y)) <= 0 && Compare(Some(y), Some(z)) < 0 ==> Compare(Some(x), Some(z)) < 0
    ensures Compare(Some(x), Some(y)) < 0 && Compare(Some(y), Some(z)) <= 0 ==> Compare(Some(x), Some(z)) < 0
  {
  }

  // ---------------------------------------------------------------------
  // Cursors and the resume token

  /** A stream cursor: none, a scalar copied from the caller's token, or a
      (time, contactId, paperId) triple. */
  datatype Cursor = NoCursor | Raw(token: string) | Triple(time: int, contactId: int, paperId: int)

  /** PHP truthiness of a cursor: a triple is a non-empty array. */
  predicate Truthy(c: Cursor) {
    match c
    case NoCursor => false
    case Raw(s) => PhpTruthy(s)
    case Triple(_, _, _) => true
  }

  /** The cursor made from a fetched row. */
  function CursorAt(r: Row): Cursor {
    Triple(SortTime(r), r.contactId, r.paperId)
  }

  /** The end of the run of digits that starts at `i`. */
  function DigitRunEnd(s: string, i: nat): (e: nat)
    requires i <= |s|
    ensures i <= e <= |s|
    ensures AllDigits(s[i..e])
    ensures e < |s| ==> !IsDigit(s[e])
    decreases |s| - i
  {
    if i < |s| && IsDigit(s[i]) then
      var e := DigitRunEnd(s, i + 1);
      assert s[i..e] == [s[i]] + s[i + 1..e];
      e
    else i
  }

  /** `s` is three non-empty digit runs `a`, `b`, `c` joined by dots. */
  predicate TripleShape(s: string, a: string, b: string, c: string) {
    |a| > 0 && |b| > 0 && |c| > 0 && AllDigits(a) && AllDigits(b) && AllDigits(c)
    && s == a + "." + b + "." + c
  }

  /** The match of `\A(\d+)\.(\d+)\.(\d+)\z` against `s`, as three numbers. */
  function MatchTriple(s: string): Option<(nat, nat, nat)> {
    var e1 := DigitRunEnd(s, 0);
    if e1 == 0 || e1 == |s| || s[e1] != '.' then None
    else
      var e2 := DigitRunEnd(s, e1 + 1);
      if e2 == e1 + 1 || e2 == |s| || s[e2] != '.' then None
      else
        var e3 := DigitRunEnd(s, e2 + 1);
        if e3 == e2 + 1 || e3 != |s| then None
        else Some((DigitsValue(s[..e1]), DigitsValue(s[e1 + 1..e2]), DigitsValue(s[e2 + 1..e3])))
  }

  lemma {:induction false} DigitRunEndAt(s: string, i: nat, j: nat)
    requires i <= j <= |s|
    requires AllDigits(s[i..j])
    requires j < |s| ==> !IsDigit(s[j])
    ensures DigitRunEnd(s, i) == j
    decreases j - i
  {
    if i < j {
      assert s[i] == s[i..j][0];
      assert s[i + 1..j] == s[i..j][1..];
      DigitRunEndAt(s, i + 1, j);
    }
  }

  /** The token regex accepts exactly the three-digit-run shape, and then
      yields the values of the three runs. */
  lemma {:induction false} MatchTripleIff(s: string)
    ensures MatchTriple(s).Some? <==> exists a, b, c :: TripleShape(s, a, b, c)
  {
    if MatchTriple(s).Some? {
      var e1 := DigitRunEnd(s, 0);
      var e2 := DigitRunEnd(s, e1 + 1);
      assert s == s[..e1] + "." + s[e1 + 1..e2] + "." + s[e2 + 1..|s|];
      assert TripleShape(s, s[..e1], s[e1 + 1..e2], s[e2 + 1..|s|]);
    } else if exists a, b, c :: TripleShape(s, a, b, c) {
      var a, b, c :| TripleShape(s, a, b, c);
      MatchTripleOfShape(s, a, b, c);
    }
  }

  lemma {:induction false} SplitAtDot(s: string, x: string, y: string)
    requires s == x + "." + y
    ensures s[..|x|] == x && s[|x|] == '.' && s[|x| + 1..] == y
  {
  }

  lemma {:induction false} MatchTripleOfShape(s: string, a: string, b: string, c: string)
    requires TripleShape(s, a, b, c)
    ensures MatchTriple(s) == Some((DigitsValue(a), DigitsValue(b), DigitsValue(c)))
  {
    var ab := a + "." + b;
    assert s == ab + "." + c;
    SplitAtDot(s, ab, c);
    SplitAtDot(ab, a, b);
    var e1, e2 := |a|, |ab|;
    assert s[..e1] == a by { assert s[..e1] == s[..e2][..e1]; }
    assert s[e1] == '.' by { assert s[e1] == s[..e2][e1]; }
    assert s[e1 + 1..e2] == b by { assert s[e1 + 1..e2] == s[..e2][e1 + 1..]; }
    DigitRunEndAt(s, 0, e1);
    DigitRunEndAt(s, e1 + 1, e2);
    assert s[e2 + 1..|s|] == c;
    DigitRunEndAt(s, e2 + 1, |s|);
  }

  /** The token parse at the top of `reviewerActivity`: a token of three
      dot-separated digit runs becomes a triple cursor; any other token is
      kept unchanged as a scalar; no token means no cursor. */
  function ParseToken(t0: Option<string>): (c: Cursor)
    ensures c.NoCursor? <==> t0.None?
    ensures c.Raw? ==> t0 == Some(c.token) && MatchTriple(c.token).None?
    ensures c.Triple? ==> t0.Some? && MatchTriple(t0.value) == Some((c.time, c.contactId, c.paperId))
  {
    if t0.Some? && PhpTruthy(t0.value) && MatchTriple(t0.value).Some? then
      var m := MatchTriple(t0.value).value;
      Triple(m.0, m.1, m.2)
    else if t0.None? then NoCursor
    else Raw(t0.value)
  }

  lemma {:induction false} ParseTokenTriple(a: string, b: string, c: string)
    requires |a| > 0 && |b| > 0 && |c| > 0 && AllDigits(a) && AllDigits(b) && AllDigits(c)
    ensures ParseToken(Some(a + "." + b + "." + c)) == Triple(DigitsValue(a), DigitsValue(b), DigitsValue(c))
  {
    var s := a + "." + b + "." + c;
    assert TripleShape(s, a, b, c);
    MatchTripleOfShape(s, a, b, c);
    assert s[|a|] == '.';
  }

  lemma {:induction false} ParseTokenOther(s: string)
    requires forall a, b, c :: !TripleShape(s, a, b, c)
    ensures ParseToken(Some(s)) == Raw(s)
  {
    MatchTripleIff(s);
  }

  /** An optionally negative decimal integer literal, as SQL reads a scalar bound. */
  function IntLiteral(s: string): Option<int> {
    if |s| > 0 && AllDigits(s) then Some(DigitsValue(s))
    else if |s| > 1 && s[0] == '-' && AllDigits(s[1..]) then Some(0 - DigitsValue(s[1..]) as int)
    else None
  }

  /** The resume condition `_flowQueryWheres` adds to a fetch. */
  predicate Admits(c: Cursor, r: Row) {
    match c
    case Triple(t, cid, pid) =>
      SortTime(r) < t
      || (SortTime(r) == t && r.contactId > cid)
      || (SortTime(r) == t && r.contactId == cid && r.paperId > pid)
    case Raw(s) =>
      !PhpTruthy(s) || (IntLiteral(s).Some? && SortTime(r) < IntLiteral(s).value)
    case NoCursor => true
  }

  /** A triple cursor admits exactly the rows that sort strictly after it. */
  lemma {:induction false} AdmitsCursorAt(x: Row, y: Row)
    ensures Admits(CursorAt(x), y) <==> Before(x, y)
  {
  }

  /** Whatever the cursor, the rows it admits are closed under "comes later". */
  lemma {:induction false} AdmitsUpClosed(c: Cursor, y: Row, z: Row)
    requires Admits(c, y) && Compare(Some(y), Some(z)) <= 0
    ensures Admits(c, z)
  {
  }

  /** The source rows a cursor admits, in source order. */
  function AdmittedRows(c: Cursor, src: seq<Row>): seq<Row>
  {
    Filter((x: Row) => Admits(c, x), src)
  }

  /** One fetch: the first `limit` admitted rows. */
  function Fetch(src: seq<Row>, c: Cursor, limit: nat): (batch: seq<Row>)
    ensures |batch| <= limit && |batch| <= |AdmittedRows(c, src)|
    ensures batch == AdmittedRows(c, src)[..|batch|]
    ensures |batch| < limit ==> batch == AdmittedRows(c, src)
    ensures forall r :: r in batch ==> r in src && Admits(c, r)
  {
    FilterMembers((x: Row) => Admits(c, x), src);
    var a := AdmittedRows(c, src);
    var batch := Take(a, limit);
    assert forall r :: r in batch ==> r in a by {
      forall r | r in batch ensures r in a {
        var i :| 0 <= i < |batch| && batch[i] == r;
        assert a[i] == r;
      }
    }
    batch
  }

  /** The rows a side may still fetch: none once its cursor is falsy. */
  function Pending(c: Cursor, src: seq<Row>): seq<Row> {
    if Truthy(c) then AdmittedRows(c, src) else []
  }

  // ---------------------------------------------------------------------
  // Sorted sources and paging

  /** Strictly descending in feed order: what ORDER BY yields when no two
      rows of a table share (time, contactId, paperId). */
  predicate Descending(s: seq<Row>) {
    forall i, j :: 0 <= i < j < |s| ==> Before(s[i], s[j])
  }

  /** Non-strictly descending in feed order. */
  predicate Sorted(s: seq<Row>) {
    forall i, j :: 0 <= i < j < |s| ==> Compare(Some(s[i]), Some(s[j])) <= 0
  }

  lemma {:induction false} AdmittedFrom(c: Cursor, src: seq<Row>, k: nat)
    requires k <= |src|
    requires forall i :: 0 <= i < |src| ==> (Admits(c, src[i]) <==> i >= k)
    ensures AdmittedRows(c, src) == src[k..]
  {
    if src != [] {
      assert forall i :: 0 <= i < |src| - 1 ==> src[1..][i] == src[i + 1];
      AdmittedFrom(c, src[1..], if k == 0 then 0 else k - 1);
    }
  }

  /** On a descending source, what a cursor admits is a suffix. */
  lemma {:induction false} AdmittedIsSuffix(c: Cursor, src: seq<Row>)
    requires Sorted(src)
    ensures |AdmittedRows(c, src)| <= |src|
    ensures AdmittedRows(c, src) == src[|src| - |AdmittedRows(c, src)|..]
  {
    if src != [] {
      if Admits(c, src[0]) {
        forall i | 0 <= i < |src| ensures Admits(c, src[i]) {
          if i > 0 { AdmitsUpClosed(c, src[0], src[i]); }
        }
        AdmittedFrom(c, src, 0);
      } else {
        assert Sorted(src[1..]);
        AdmittedIsSuffix(c, src[1..]);
      }
    }
  }

  /** Paging loses nothing on a strictly descending source: a full batch
      followed by what its last row's cursor admits is all the old cursor admitted. */
  lemma {:induction false} RefetchFull(src: seq<Row>, c: Cursor, limit: nat)
    requires Descending(src)
    requires limit > 0 && |Fetch(src, c, limit)| == limit
    ensures var batch := Fetch(src, c, limit);
      AdmittedRows(c, src) == batch + AdmittedRows(CursorAt(batch[limit - 1]), src)
  {
    var a := AdmittedRows(c, src);
    AdmittedIsSuffix(c, src);
    var m := |src| - |a|;
    var x := a[limit - 1];
    assert x == src[m + limit - 1];
    forall i | 0 <= i < |src| ensures Admits(CursorAt(x), src[i]) <==> i >= m + limit {
      AdmitsCursorAt(x, src[i]);
      if i < m + limit - 1 { CompareOrder(Some(src[i]), Some(x)); }
    }
    AdmittedFrom(CursorAt(x), src, m + limit);
    assert a == a[..limit] + a[limit..];
  }

  /** Duplicate keys break paging: the second of two rows with the same
      (time, contactId, paperId) is never fetched after the first ends a batch. */
  lemma {:induction false} DuplicateKeySkipped(x: Row, y: Row)
    requires Key(x) == Key(y) && x != y
    ensures Fetch([x, y], NoCursor, 1) == [x]
    ensures Fetch([x, y], CursorAt(x), 1) == []
  {
    assert [x, y][1..] == [y] && [y][1..] == [];
    assert AdmittedRows(NoCursor, [y]) == [y];
    assert AdmittedRows(NoCursor, [x, y]) == [x, y];
    assert AdmittedRows(CursorAt(x), [y]) == [];
    assert AdmittedRows(CursorAt(x), [x, y]) == [];
  }

  /** The termination measure of one side. */
  function Weight(c: Cursor, src: seq<Row>): nat {
    if Truthy(c) then |AdmittedRows(c, src)| + 1 else 0
  }

  lemma {:induction false} FilterShrinks(c: Cursor, d: Cursor, src: seq<Row>, x: Row)
    requires forall y :: Admits(d, y) ==> Admits(c, y)
    requires x in src && Admits(c, x) && !Admits(d, x)
    ensures |AdmittedRows(d, src)| < |AdmittedRows(c, src)|
  {
    if src[0] == x {
      assert |AdmittedRows(d, src[1..])| <= |AdmittedRows(c, src[1..])| by { FilterWeaker(c, d, src[1..]); }
    } else {
      FilterShrinks(c, d, src[1..], x);
    }
  }

  lemma {:induction false} FilterWeaker(c: Cursor, d: Cursor, src: seq<Row>)
    requires forall y :: Admits(d, y) ==> Admits(c, y)
    ensures |AdmittedRows(d, src)| <= |AdmittedRows(c, src)|
  {
    if src != [] { FilterWeaker(c, d, src[1..]); }
  }

  /** A full batch moves the cursor strictly forward, whatever the source. */
  lemma {:induction false} RefetchShrinks(src: seq<Row>, c: Cursor, limit: nat)
    requires Truthy(c) && limit > 0 && |Fetch(src, c, limit)| == limit
    ensures Weight(CursorAt(Fetch(src, c, limit)[limit - 1]), src) < Weight(c, src)
  {
    var x := Fetch(src, c, limit)[limit - 1];
    assert x in AdmittedRows(c, src);
    forall y | Admits(CursorAt(x), y) ensures Admits(c, y) {
      AdmitsUpClosed(c, x, y);
    }
    FilterShrinks(c, CursorAt(x), src, x);
  }

  // ---------------------------------------------------------------------
  // The merge specification

  function Head(s: seq<Row>): Option<Row> {
    if s == [] then None else Some(s[0])
  }

  /** The two-way merge the loop performs: the comment goes first only when it
      compares strictly before the review; on a tie the review goes first. */
  function Merge(cs: seq<Row>, rs: seq<Row>): (r: seq<Item>)
    ensures |r| == |cs| + |rs|
    decreases |cs| + |rs|
  {
    if cs == [] && rs == [] then []
    else if Compare(Head(cs), Head(rs)) < 0 then [Item(cs[0], true)] + Merge(cs[1..], rs)
    else [Item(rs[0], false)] + Merge(cs, rs[1..])
  }

  /** The rows of the items with a given tag, in order. */
  function Tagged(items: seq<Item>, isComment: bool): seq<Row> {
    if items == [] then []
    else (if items[0].isComment == isComment then [items[0].row] else []) + Tagged(items[1..], isComment)
  }

  /** The merge interleaves the two sides without losing, adding or
      reordering anything, and tags each row with its side. */
  lemma {:induction false} MergeInterleaves(cs: seq<Row>, rs: seq<Row>)
    ensures Tagged(Merge(cs, rs), true) == cs
    ensures Tagged(Merge(cs, rs), false) == rs
    decreases |cs| + |rs|
  {
    if cs == [] && rs == [] {
    } else if Compare(Head(cs), Head(rs)) < 0 {
      MergeInterleaves(cs[1..], rs);
      assert Merge(cs, rs)[1..] == Merge(cs[1..], rs);
    } else {
      MergeInterleaves(cs, rs[1..]);
      assert Merge(cs, rs)[1..] == Merge(cs, rs[1..]);
    }
  }

  predicate SortedItems(items: seq<Item>) {
    forall i, j :: 0 <= i < j < |items| ==> Compare(Some(items[i].row), Some(items[j].row)) <= 0
  }

  lemma {:induction false} MergeMembers(cs: seq<Row>, rs: seq<Row>)
    ensures forall it :: it in Merge(cs, rs) ==> it.row in cs || it.row in rs
    decreases |cs| + |rs|
  {
    if cs == [] && rs == [] {
    } else if Compare(Head(cs), Head(rs)) < 0 {
      MergeMembers(cs[1..], rs);
    } else {
      MergeMembers(cs, rs[1..]);
    }
  }

  /** Merging two sides sorted in feed order yields a list in feed order. */
  lemma {:induction false} MergeSorted(cs: seq<Row>, rs: seq<Row>)
    requires Sorted(cs) && Sorted(rs)
    ensures SortedItems(Merge(cs, rs))
    decreases |cs| + |rs|
  {
    if cs == [] && rs == [] {
    } else {
      var m := Merge(cs, rs);
      var h := m[0].row;
      var rest := m[1..];
      if Compare(Head(cs), Head(rs)) < 0 {
        assert Sorted(cs[1..]);
        MergeSorted(cs[1..], rs);
        MergeMembers(cs[1..], rs);
        assert rest == Merge(cs[1..], rs);
        forall it | it in rest ensures Compare(Some(h), Some(it.row)) <= 0 {
          if it.row in rs {
            var k :| 0 <= k < |rs| && rs[k] == it.row;
            CompareTransitive(h, rs[0], it.row);
          }
        }
      } else {
        assert Sorted(rs[1..]);
        MergeSorted(cs, rs[1..]);
        MergeMembers(cs, rs[1..]);
        assert rest == Merge(cs, rs[1..]);
        forall it | it in rest ensures Compare(Some(h), Some(it.row)) <= 0 {
          if it.row in cs {
            var k :| 0 <= k < |cs| && cs[k] == it.row;
            CompareOrder(Head(cs), Head(rs));
            CompareTransitive(h, cs[0], it.row);
          }
        }
      }
      forall i, j | 0 <= i < j < |m| ensures Compare(Some(m[i].row), Some(m[j].row)) <= 0 {
        if i > 0 {
          assert m[i] == rest[i - 1] && m[j] == rest[j - 1];
        } else {
          assert m[j] in rest;
        }
      }
    }
  }

  lemma {:induction false} FilterSorted(p: Row -> bool, s: seq<Row>)
    requires Sorted(s)
    ensures Sorted(Filter(p, s))
  {
    if s != [] {
      assert Sorted(s[1..]);
      FilterSorted(p, s[1..]);
      FilterMembers(p, s[1..]);
      var f := Filter(p, s);
      var tail := Filter(p, s[1..]);
      forall i, j | 0 <= i < j < |f| ensures Compare(Some(f[i]), Some(f[j])) <= 0 {
        if p(s[0]) && i == 0 {
          assert f[j] == tail[j - 1];
          assert f[j] in s[1..];
        } else if p(s[0]) {
          assert f[i] == tail[i - 1] && f[j] == tail[j - 1];
        } else {
          assert f == tail;
        }
      }
    }
  }

  /** The feed `reviewerActivity` should return from the parsed cursor `c0`:
      the first `limit` items of the merge of the visible admitted rows of
      both sides. */
  function Feed(csrc: seq<Row>, rsrc: seq<Row>, canViewComment: Row -> bool,
                canViewReview: Row -> bool, c0: Cursor, limit: int): seq<Item>
  {
    Take(Merge(Filter(canViewComment, Pending(c0, csrc)), Filter(canViewReview, Pending(c0, rsrc))),
         if limit < 0 then 0 else limit)
  }

  /** On sorted sources the feed is in feed order. */
  lemma {:induction false} FeedSorted(csrc: seq<Row>, rsrc: seq<Row>, canViewComment: Row -> bool,
                                      canViewReview: Row -> bool, c0: Cursor, limit: int)
    requires Sorted(csrc) && Sorted(rsrc)
    ensures SortedItems(Feed(csrc, rsrc, canViewComment, canViewReview, c0, limit))
  {
    var cs := Filter(canViewComment, Pending(c0, csrc));
    var rs := Filter(canViewReview, Pending(c0, rsrc));
    AdmittedIsSuffix(c0, csrc);
    AdmittedIsSuffix(c0, rsrc);
    assert Sorted(Pending(c0, csrc)) && Sorted(Pending(c0, rsrc));
    FilterSorted(canViewComment, Pending(c0, csrc));
    FilterSorted(canViewReview, Pending(c0, rsrc));
    MergeSorted(cs, rs);
    var m := Merge(cs, rs);
    var f := Feed(csrc, rsrc, canViewComment, canViewReview, c0, limit);
    assert f == m[..|f|];
  }

  /** Every item of the feed is a visible row of the side its tag names. */
  lemma {:induction false} FeedVisible(csrc: seq<Row>, rsrc: seq<Row>, canViewComment: Row -> bool,
                                       canViewReview: Row -> bool, c0: Cursor, limit: int)
    ensures forall it :: it in Feed(csrc, rsrc, canViewComment, canViewReview, c0, limit) ==>
      if it.isComment then it.row in csrc && canViewComment(it.row)
      else it.row in rsrc && canViewReview(it.row)
  {
    var cs := Filter(canViewComment, Pending(c0, csrc));
    var rs := Filter(canViewReview, Pending(c0, rsrc));
    FilterMembers(canViewComment, Pending(c0, csrc));
    FilterMembers(canViewReview, Pending(c0, rsrc));
    FilterMembers((x: Row) => Admits(c0, x), csrc);
    FilterMembers((x: Row) => Admits(c0, x), rsrc);
    MergeInterleaves(cs, rs);
    var m := Merge(cs, rs);
    var f := Feed(csrc, rsrc, canViewComment, canViewReview, c0, limit);
    forall it | it in f
      ensures if it.isComment then it.row in csrc && canViewComment(it.row)
              else it.row in rsrc && canViewReview(it.row)
    {
      assert it in m;
      TaggedMember(m, it);
    }
  }

  /** A feed shorter than `limit` holds every visible admitted row of both sides. */
  lemma {:induction false} FeedComplete(csrc: seq<Row>, rsrc: seq<Row>, canViewComment: Row -> bool,
                                        canViewReview: Row -> bool, c0: Cursor, limit: int)
    requires |Feed(csrc, rsrc, canViewComment, canViewReview, c0, limit)| < limit
    ensures var f := Feed(csrc, rsrc, canViewComment, canViewReview, c0, limit);
      && Tagged(f, true) == Filter(canViewComment, Pending(c0, csrc))
      && Tagged(f, false) == Filter(canViewReview, Pending(c0, rsrc))
  {
    MergeInterleaves(Filter(canViewComment, Pending(c0, csrc)), Filter(canViewReview, Pending(c0, rsrc)));
  }

  lemma {:induction false} TaggedMember(items: seq<Item>, it: Item)
    requires it in items
    ensures it.row in Tagged(items, it.isComment)
  {
    if items[0] != it { TaggedMember(items[1..], it); }
  }

  // ---------------------------------------------------------------------
  // The loop

  function SlotSeq(slot: Option<Row>): seq<Row> {
    if slot.Some? then [slot.value] else []
  }

  /** What one side may still emit: its current row, then the visible rows of
      its buffer (popped from the back) and of its pending source rows. */
  function Remaining(slot: Option<Row>, buffer: seq<Row>, c: Cursor, src: seq<Row>,
                     canView: Row -> bool): seq<Row>
  {
    SlotSeq(slot) + Filter(canView, Reverse(buffer) + Pending(c, src))
  }

  /** A side with a current row emits it first. */
  lemma {:induction false} RemainingHead(slot: Option<Row>, buffer: seq<Row>, c: Cursor, src: seq<Row>,
                                         canView: Row -> bool)
    requires slot.Some? || Remaining(slot, buffer, c, src, canView) == []
    ensures Head(Remaining(slot, buffer, c, src, canView)) == slot
    ensures slot.Some? ==>
      Remaining(slot, buffer, c, src, canView) == [slot.value] + Remaining(None, buffer, c, src, canView)
  {
  }

  /** Popping the newest buffered row `x`: a visible one becomes the current
      row, an invisible one disappears; what the side may emit is unchanged. */
  lemma {:induction false} PopStep(buffer: seq<Row>, c: Cursor, src: seq<Row>, canView: Row -> bool)
    requires buffer != []
    ensures var x := buffer[|buffer| - 1];
      Remaining(None, buffer, c, src, canView)
      == Remaining(if canView(x) then Some(x) else None, buffer[..|buffer| - 1], c, src, canView)
  {
    PopFilter(buffer, Pending(c, src), canView);
  }

  lemma {:induction false} PopFilter(buffer: seq<Row>, pending: seq<Row>, canView: Row -> bool)
    requires buffer != []
    ensures var x := buffer[|buffer| - 1];
      Filter(canView, Reverse(buffer) + pending)
      == SlotSeq(if canView(x) then Some(x) else None) + Filter(canView, Reverse(buffer[..|buffer| - 1]) + pending)
  {
    var x := buffer[|buffer| - 1];
    var tail := Reverse(buffer[..|buffer| - 1]) + pending;
    assert Reverse(buffer) + pending == [x] + tail by { PopReverse(buffer); }
    FilterCons(canView, x, tail);
  }

  /** Refilling an empty buffer from a strictly descending source leaves what
      the side may emit unchanged. */
  lemma {:induction false} FetchStep(src: seq<Row>, c: Cursor, limit: nat, canView: Row -> bool)
    requires Descending(src) && Truthy(c) && limit > 0
    ensures var batch := Fetch(src, c, limit);
      var next := if |batch| == limit then CursorAt(batch[limit - 1]) else NoCursor;
      Remaining(None, [], c, src, canView) == Remaining(None, Reverse(batch), next, src, canView)
  {
    var batch := Fetch(src, c, limit);
    var next := if |batch| == limit then CursorAt(batch[limit - 1]) else NoCursor;
    assert Pending(c, src) == batch + Pending(next, src) by {
      if |batch| == limit {
        RefetchFull(src, c, limit);
      } else {
        assert Pending(next, src) == [];
      }
    }
    RefillFilter(batch, Pending(c, src), Pending(next, src), canView);
  }

  lemma {:induction false} RefillFilter(batch: seq<Row>, pending: seq<Row>, pending': seq<Row>,
                                        canView: Row -> bool)
    requires pending == batch + pending'
    ensures SlotSeq(None) + Filter(canView, Reverse([]) + pending)
      == SlotSeq(None) + Filter(canView, Reverse(Reverse(batch)) + pending')
  {
    ReverseTwice(batch);
    assert Reverse<Row>([]) + pending == pending;
  }

  lemma {:induction false} PopReverse(buffer: seq<Row>)
    requires buffer != []
    ensures Reverse(buffer) == [buffer[|buffer| - 1]] + Reverse(buffer[..|buffer| - 1])
  {
    var r, t := Reverse(buffer), [buffer[|buffer| - 1]] + Reverse(buffer[..|buffer| - 1]);
    assert |r| == |t|;
    forall i | 0 <= i < |r| ensures r[i] == t[i] {
      if i > 0 { assert t[i] == Reverse(buffer[..|buffer| - 1])[i - 1]; }
    }
  }

  lemma {:induction false} ReverseTwice(s: seq<Row>)
    ensures Reverse(Reverse(s)) == s
  {
  }

  /** Emitting the comment at the head of the comment side. */
  lemma {:induction false} MergeTakeComment(cs: seq<Row>, rs: seq<Row>)
    requires cs != [] && Compare(Some(cs[0]), Head(rs)) < 0
    ensures Merge(cs, rs) == [Item(cs[0], true)] + Merge(cs[1..], rs)
  {
  }

  /** Emitting the review at the head of the review side. */
  lemma {:induction false} MergeTakeReview(cs: seq<Row>, rs: seq<Row>)
    requires rs != [] && Compare(Head(cs), Some(rs[0])) >= 0
    ensures Merge(cs, rs) == [Item(rs[0], false)] + Merge(cs, rs[1..])
  {
  }

  /** One emission step of the loop keeps the completeness equation. */
  lemma {:induction false} EmitComment(prev: seq<Item>, x: Row, restC: seq<Row>, rs: seq<Row>,
                                       all: seq<Item>)
    requires prev + Merge([x] + restC, rs) == all
    requires Compare(Some(x), Head(rs)) < 0
    ensures (prev + [Item(x, true)]) + Merge(restC, rs) == all
  {
    var cs := [x] + restC;
    assert cs[0] == x && cs[1..] == restC;
    MergeTakeComment(cs, rs);
  }

  lemma {:induction false} EmitReview(prev: seq<Item>, y: Row, cs: seq<Row>, restR: seq<Row>,
                                      all: seq<Item>)
    requires prev + Merge(cs, [y] + restR) == all
    requires Compare(Head(cs), Some(y)) >= 0
    ensures (prev + [Item(y, false)]) + Merge(cs, restR) == all
  {
    var rs := [y] + restR;
    assert rs[0] == y && rs[1..] == restR;
    MergeTakeReview(cs, rs);
  }

  /** Every item is a visible row of its own stream. */
  predicate Visible(items: seq<Item>, csrc: seq<Row>, rsrc: seq<Row>, canViewComment: Row -> bool,
                    canViewReview: Row -> bool) {
    forall it :: it in items ==>
      if it.isComment then it.row in csrc && canViewComment(it.row)
      else it.row in rsrc && canViewReview(it.row)
  }

  /** A side's current row is a visible source row and its buffer holds source rows. */
  predicate SideOk(slot: Option<Row>, buffer: seq<Row>, src: seq<Row>, canView: Row -> bool) {
    && (slot.Some? ==> slot.value in src && canView(slot.value))
    && (forall x :: x in buffer ==> x in src)
  }

  // ---------------------------------------------------------------------
  // Feed order on sorted sources, ties included

  /** Everything a side may still emit, visible or not: its current row,
      its buffer in pop order, then its pending source rows. */
  function Future(slot: Option<Row>, buffer: seq<Row>, c: Cursor, src: seq<Row>): seq<Row> {
    SlotSeq(slot) + Reverse(buffer) + Pending(c, src)
  }

  /** No emitted item comes after any row of `rows`. */
  predicate EmittedFirst(items: seq<Item>, rows: seq<Row>) {
    forall it, y :: it in items && y in rows ==> Compare(Some(it.row), Some(y)) <= 0
  }

  /** A side's future is in feed order and no emitted item comes after it. */
  predicate SideInOrder(items: seq<Item>, f: seq<Row>) {
    Sorted(f) && EmittedFirst(items, f)
  }

  /** The order invariant of the loop: the items emitted so far are in feed
      order and precede both sides' futures, each of which is in feed order. */
  predicate InOrder(items: seq<Item>, fc: seq<Row>, fr: seq<Row>) {
    SortedItems(items) && SideInOrder(items, fc) && SideInOrder(items, fr)
  }

  /** On a sorted source the rows a cursor admits are in feed order. */
  lemma PendingSorted(c: Cursor, src: seq<Row>)
    requires Sorted(src)
    ensures Sorted(Pending(c, src))
  {
    if Truthy(c) {
      AdmittedIsSuffix(c, src);
      var a := AdmittedRows(c, src);
      forall i, j | 0 <= i < j < |a| ensures Compare(Some(a[i]), Some(a[j])) <= 0 {
        var m := |src| - |a|;
        assert a[i] == src[m + i] && a[j] == src[m + j];
      }
    }
  }

  lemma {:induction false} SortedAppend(a: seq<Row>, b: seq<Row>)
    requires Sorted(a) && Sorted(b)
    requires forall x, y :: x in a && y in b ==> Compare(Some(x), Some(y)) <= 0
    ensures Sorted(a + b)
  {
    var ab := a + b;
    forall i, j | 0 <= i < j < |ab| ensures Compare(Some(ab[i]), Some(ab[j])) <= 0 {
      if j < |a| {
        assert ab[i] == a[i] && ab[j] == a[j];
      } else if i >= |a| {
        assert ab[i] == b[i - |a|] && ab[j] == b[j - |a|];
      } else {
        assert ab[i] in a && ab[j] in b;
      }
    }
  }

  /** The head of a sorted sequence comes no later than the rest, which is sorted too. */
  lemma {:induction false} SortedTail(x: Row, rest: seq<Row>)
    requires Sorted([x] + rest)
    ensures Sorted(rest)
    ensures forall y :: y in rest ==> Compare(Some(x), Some(y)) <= 0
  {
    var s := [x] + rest;
    forall i, j | 0 <= i < j < |rest| ensures Compare(Some(rest[i]), Some(rest[j])) <= 0 {
      assert rest[i] == s[i + 1] && rest[j] == s[j + 1];
    }
    forall y | y in rest ensures Compare(Some(x), Some(y)) <= 0 {
      var k :| 0 <= k < |rest| && rest[k] == y;
      assert s[0] == x && s[k + 1] == y;
    }
  }

  /** After a refill a side's future is the batch, then what the new cursor admits. */
  lemma {:induction false} RefilledFuture(batch: seq<Row>, next: Cursor, src: seq<Row>)
    ensures Future(None, Reverse(batch), next, src) == batch + Pending(next, src)
  {
    ReverseTwice(batch);
    assert SlotSeq(None) == [];
  }

  /** What a row's cursor admits was admitted by any cursor admitting that row. */
  lemma {:induction false} PendingWithin(c: Cursor, x: Row, src: seq<Row>)
    requires Truthy(c) && Admits(c, x)
    ensures forall y :: y in Pending(CursorAt(x), src) ==> y in Pending(c, src)
  {
    FilterMembers((r: Row) => Admits(CursorAt(x), r), src);
    forall y | y in Pending(CursorAt(x), src) ensures y in Pending(c, src) {
      AdmitsCursorAt(x, y);
      AdmitsUpClosed(c, x, y);
      FilterKeeps((r: Row) => Admits(c, r), src, y);
    }
  }

  /** A refill only ever drops rows from a side's future: the batch and the
      rows after its last key were all admitted before. */
  lemma {:induction false} FetchWithin(src: seq<Row>, c: Cursor, limit: nat, batch: seq<Row>, next: Cursor)
    requires Truthy(c) && limit > 0 && batch == Fetch(src, c, limit)
    requires next == if |batch| == limit then CursorAt(batch[limit - 1]) else NoCursor
    ensures forall y :: y in batch + Pending(next, src) ==> y in Pending(c, src)
  {
    if |batch| == limit {
      PendingWithin(c, batch[limit - 1], src);
    }
    forall y | y in batch ensures y in Pending(c, src) {
      FilterKeeps((r: Row) => Admits(c, r), src, y);
    }
  }

  /** On a sorted source a refill keeps a side's future in feed order, even
      when it skips rows that tie with the batch's last key. */
  lemma {:induction false} FetchSorted(src: seq<Row>, c: Cursor, limit: nat, batch: seq<Row>, next: Cursor)
    requires Sorted(src) && Truthy(c) && limit > 0 && batch == Fetch(src, c, limit)
    requires next == if |batch| == limit then CursorAt(batch[limit - 1]) else NoCursor
    ensures Sorted(batch + Pending(next, src))
  {
    PendingSorted(c, src);
    SortedPrefix(Pending(c, src), |batch|);
    if |batch| == limit {
      PendingSorted(next, src);
      AfterCursor(batch[limit - 1], src);
      BatchThenLater(batch, Pending(next, src));
    } else {
      assert batch + Pending(next, src) == batch;
    }
  }

  lemma {:induction false} SortedPrefix(s: seq<Row>, n: nat)
    requires Sorted(s) && n <= |s|
    ensures Sorted(s[..n])
  {
    forall i, j | 0 <= i < j < n ensures Compare(Some(s[..n][i]), Some(s[..n][j])) <= 0 {
      assert s[..n][i] == s[i] && s[..n][j] == s[j];
    }
  }

  /** Popping the newest buffered row `x` takes it off the front of the side's future. */
  lemma {:induction false} PopFuture(buffer: seq<Row>, c: Cursor, src: seq<Row>)
    requires buffer != []
    ensures var x, rest := buffer[|buffer| - 1], buffer[..|buffer| - 1];
      && Future(None, buffer, c, src) == [x] + Future(None, rest, c, src)
      && Future(Some(x), rest, c, src) == Future(None, buffer, c, src)
  {
    var x, rest := buffer[|buffer| - 1], buffer[..|buffer| - 1];
    var p := Pending(c, src);
    PopReverse(buffer);
    assert SlotSeq(None) + Reverse(buffer) + p == [x] + (SlotSeq(None) + Reverse(rest) + p);
    assert SlotSeq(Some(x)) + Reverse(rest) + p == [x] + (SlotSeq(None) + Reverse(rest) + p);
  }

  /** The rows a row's cursor admits all come strictly after that row. */
  lemma {:induction false} AfterCursor(x: Row, src: seq<Row>)
    ensures forall y :: y in Pending(CursorAt(x), src) ==> Before(x, y)
  {
    FilterMembers((r: Row) => Admits(CursorAt(x), r), src);
    forall y | y in Pending(CursorAt(x), src) ensures Before(x, y) {
      AdmitsCursorAt(x, y);
    }
  }

  /** A sorted batch followed by sorted rows that all come after its last row is sorted. */
  lemma {:induction false} BatchThenLater(batch: seq<Row>, later: seq<Row>)
    requires batch != [] && Sorted(batch) && Sorted(later)
    requires forall y :: y in later ==> Before(batch[|batch| - 1], y)
    ensures Sorted(batch + later)
  {
    var x := batch[|batch| - 1];
    forall b, y | b in batch && y in later ensures Compare(Some(b), Some(y)) <= 0 {
      var k :| 0 <= k < |batch| && batch[k] == b;
      if k < |batch| - 1 { CompareTransitive(b, x, y); }
    }
    SortedAppend(batch, later);
  }

  /** A side that shows no current row and no restart has nothing left at all. */
  lemma {:induction false} FutureHead(slot: Option<Row>, buffer: seq<Row>, c: Cursor, src: seq<Row>)
    requires slot.Some? || (buffer == [] && !Truthy(c))
    ensures slot.None? ==> Future(slot, buffer, c, src) == []
    ensures slot.Some? ==> Future(slot, buffer, c, src) == [slot.value] + Future(None, buffer, c, src)
  {
    if slot.None? {
      assert Reverse<Row>([]) == [];
    }
  }

  /** Dropping rows from a side's future, keeping it in feed order, keeps the side in order. */
  lemma {:induction false} SideShrink(items: seq<Item>, f: seq<Row>, f': seq<Row>)
    requires SideInOrder(items, f) && Sorted(f')
    requires forall y :: y in f' ==> y in f
    ensures SideInOrder(items, f')
  {
  }

  /** Emitting the head `x` of one side's future, when it comes no later than
      the other side's head, keeps the invariant. */
  lemma {:induction false} EmitInOrder(items: seq<Item>, x: Row, rest: seq<Row>, other: seq<Row>, tag: bool)
    requires InOrder(items, [x] + rest, other) || InOrder(items, other, [x] + rest)
    requires other == [] || Compare(Some(x), Some(other[0])) <= 0
    ensures InOrder(items + [Item(x, tag)], rest, other)
    ensures InOrder(items + [Item(x, tag)], other, rest)
  {
    var s := [x] + rest;
    var items' := items + [Item(x, tag)];
    assert Sorted(s) && Sorted(other) && SortedItems(items);
    assert EmittedFirst(items, s) && EmittedFirst(items, other);
    SortedTail(x, rest);
    forall y | y in other ensures Compare(Some(x), Some(y)) <= 0 {
      var k :| 0 <= k < |other| && other[k] == y;
      if k > 0 { CompareTransitive(x, other[0], y); }
    }
    forall it, y | it in items' && y in rest ensures Compare(Some(it.row), Some(y)) <= 0 {
      if it in items { assert y in s; }
    }
    forall it, y | it in items' && y in other ensures Compare(Some(it.row), Some(y)) <= 0 {
    }
    forall i, j | 0 <= i < j < |items'| ensures Compare(Some(items'[i].row), Some(items'[j].row)) <= 0 {
      if j < |items| {
        assert items'[i] == items[i] && items'[j] == items[j];
      } else {
        assert items'[i] in items && x in s;
      }
    }
  }

  /** Popping the newest buffered row keeps the side in order, whether the
      row becomes the current one or is dropped as invisible. */
  lemma {:induction false} PopOrder(items: seq<Item>, buffer: seq<Row>, c: Cursor, src: seq<Row>)
    requires buffer != []
    ensures var x, rest := buffer[|buffer| - 1], buffer[..|buffer| - 1];
      SideInOrder(items, Future(None, buffer, c, src)) ==>
        SideInOrder(items, Future(Some(x), rest, c, src)) && SideInOrder(items, Future(None, rest, c, src))
  {
    var x, rest := buffer[|buffer| - 1], buffer[..|buffer| - 1];
    PopFuture(buffer, c, src);
    if SideInOrder(items, Future(None, buffer, c, src)) {
      SortedTail(x, Future(None, rest, c, src));
      SideShrink(items, Future(None, buffer, c, src), Future(None, rest, c, src));
    }
  }

  /** A refill on a sorted source keeps the side in order. */
  lemma {:induction false} FetchOrder(items: seq<Item>, src: seq<Row>, c: Cursor, limit: nat)
    requires Truthy(c) && limit > 0
    ensures var batch := Fetch(src, c, limit);
      var next := if |batch| == limit then CursorAt(batch[limit - 1]) else NoCursor;
      Sorted(src) && SideInOrder(items, Future(None, [], c, src)) ==>
        SideInOrder(items, Future(None, Reverse(batch), next, src))
  {
    if Sorted(src) && SideInOrder(items, Future(None, [], c, src)) {
      var batch := Fetch(src, c, limit);
      var next := if |batch| == limit then CursorAt(batch[limit - 1]) else NoCursor;
      RefilledFuture(batch, next, src);
      RefilledFuture([], c, src);
      FetchWithin(src, c, limit, batch, next);
      FetchSorted(src, c, limit, batch, next);
      SideShrink(items, Future(None, [], c, src), Future(None, Reverse(batch), next, src));
    }
  }

  /** Loading one side's current row, as `reviewerActivity` does for each
      side in turn: with no current row, pop the newest buffered row, or
      fetch the next batch when the buffer is empty and the cursor is still
      truthy. `restart` is the loop's `continue`: an invisible row was
      dropped or a batch was fetched. */
  method LoadSide(slot: Option<Row>, buffer: seq<Row>, c: Cursor, src: seq<Row>,
                  canView: Row -> bool, limit: int, ghost items: seq<Item>)
    returns (slot': Option<Row>, buffer': seq<Row>, c': Cursor, restart: bool)
    requires limit > 0
    requires SideOk(slot, buffer, src, canView)
    ensures SideOk(slot', buffer', src, canView)
    ensures Descending(src) ==>
      Remaining(slot', buffer', c', src, canView) == Remaining(slot, buffer, c, src, canView)
    ensures restart ==>
      Weight(c', src) < Weight(c, src) || (Weight(c', src) == Weight(c, src) && |buffer'| < |buffer|)
    ensures !restart ==> c' == c && |buffer'| + |SlotSeq(slot')| == |buffer| + |SlotSeq(slot)|
    ensures !restart && slot'.None? ==> Remaining(slot', buffer', c', src, canView) == []
    ensures slot.Some? || (buffer == [] && !Truthy(c)) ==>
      slot' == slot && buffer' == buffer && c' == c && !restart
    ensures !restart && slot'.None? ==> buffer' == [] && !Truthy(c')
    ensures Sorted(src) && SideInOrder(items, Future(slot, buffer, c, src)) ==>
      SideInOrder(items, Future(slot', buffer', c', src))
  {
    slot', buffer', c', restart := slot, buffer, c, false;
    if slot.None? {
      if buffer != [] {
        var x := buffer[|buffer| - 1];
        PopStep(buffer, c, src, canView);
        PopOrder(items, buffer, c, src);
        buffer' := buffer[..|buffer| - 1];
        if !canView(x) {
          restart := true;
        } else {
          slot' := Some(x);
        }
      } else if Truthy(c) {
        var batch := Fetch(src, c, limit);
        if |batch| == limit {
          RefetchShrinks(src, c, limit);
          c' := CursorAt(batch[limit - 1]);
        } else {
          c' := NoCursor;
        }
        if Descending(src) { FetchStep(src, c, limit, canView); }
        FetchOrder(items, src, c, limit);
        ReverseMembers(batch);
        buffer' := Reverse(batch);
        restart := true;
      } else {
        assert Remaining(slot, buffer, c, src, canView) == [];
      }
    }
  }

  /** The invariant of the merge loop in `reviewerActivity`: every emitted
      item is a visible row of its stream; on strictly descending sources the
      items emitted followed by the merge of what both sides may still emit
      is the whole reference merge; on sorted sources the items emitted are
      in feed order and come no later than anything either side may still emit. */
  ghost predicate LoopInv(activity: seq<Item>, curcr: Option<Row>, crows: seq<Row>, ct0: Cursor,
                          currr: Option<Row>, rrows: seq<Row>, rt0: Cursor,
                          remC: seq<Row>, remR: seq<Row>, csrc: seq<Row>, rsrc: seq<Row>,
                          canViewComment: Row -> bool, canViewReview: Row -> bool, c0: Cursor)
  {
    && Visible(activity, csrc, rsrc, canViewComment, canViewReview)
    && SideOk(curcr, crows, csrc, canViewComment) && SideOk(currr, rrows, rsrc, canViewReview)
    && (!Truthy(c0) ==>
          activity == [] && crows == [] && rrows == [] && curcr.None? && currr.None? && !Truthy(ct0) && !Truthy(rt0))
    && (Descending(csrc) && Descending(rsrc) ==>
          && remC == Remaining(curcr, crows, ct0, csrc, canViewComment)
          && remR == Remaining(currr, rrows, rt0, rsrc, canViewReview)
          && activity + Merge(remC, remR)
             == Merge(Filter(canViewComment, Pending(c0, csrc)), Filter(canViewReview, Pending(c0, rsrc))))
    && (Sorted(csrc) && Sorted(rsrc) ==>
          InOrder(activity, Future(curcr, crows, ct0, csrc), Future(currr, rrows, rt0, rsrc)))
  }

  /** A side with no current row, no buffer and a falsy cursor has nothing left. */
  lemma {:induction false} Drained(c: Cursor, src: seq<Row>, canView: Row -> bool)
    requires !Truthy(c)
    ensures Remaining(None, [], c, src, canView) == [] && Future(None, [], c, src) == []
  {
    assert Reverse<Row>([]) == [];
  }

  /** The start of one turn of the loop: load the current comment, then,
      unless that asked for a restart, the current review. */
  method LoadBoth(activity: seq<Item>, curcr: Option<Row>, crows: seq<Row>, ct0: Cursor,
                  currr: Option<Row>, rrows: seq<Row>, rt0: Cursor,
                  csrc: seq<Row>, rsrc: seq<Row>, canViewComment: Row -> bool,
                  canViewReview: Row -> bool, limit: int, c0: Cursor,
                  ghost remC: seq<Row>, ghost remR: seq<Row>)
    returns (curcr': Option<Row>, crows': seq<Row>, ct0': Cursor,
             currr': Option<Row>, rrows': seq<Row>, rt0': Cursor, restart: bool)
    requires limit > 0
    requires LoopInv(activity, curcr, crows, ct0, currr, rrows, rt0, remC, remR, csrc, rsrc,
                     canViewComment, canViewReview, c0)
    ensures LoopInv(activity, curcr', crows', ct0', currr', rrows', rt0', remC, remR, csrc, rsrc,
                    canViewComment, canViewReview, c0)
    ensures restart ==>
      Weight(ct0', csrc) + Weight(rt0', rsrc) < Weight(ct0, csrc) + Weight(rt0, rsrc)
      || (Weight(ct0', csrc) + Weight(rt0', rsrc) == Weight(ct0, csrc) + Weight(rt0, rsrc)
          && |crows'| + |rrows'| < |crows| + |rrows|)
    ensures !restart ==> ct0' == ct0 && rt0' == rt0 && |crows'| + |rrows'| <= |crows| + |rrows|
    ensures !restart ==>
      |crows'| + |rrows'| + |SlotSeq(curcr')| + |SlotSeq(currr')| == |crows| + |rrows| + |SlotSeq(curcr)| + |SlotSeq(currr)|
    ensures !restart ==> curcr'.Some? || (crows' == [] && !Truthy(ct0'))
    ensures !restart ==> currr'.Some? || (rrows' == [] && !Truthy(rt0'))
  {
    currr', rrows', rt0' := currr, rrows, rt0;
    curcr', crows', ct0', restart := LoadSide(curcr, crows, ct0, csrc, canViewComment, limit, activity);
    if !restart {
      currr', rrows', rt0', restart := LoadSide(currr, rrows, rt0, rsrc, canViewReview, limit, activity);
    }
  }

  /** The end of one turn of the loop: of the two current rows, emit the
      one that comes first in the feed and clear its slot. */
  method EmitLater(activity: seq<Item>, curcr: Option<Row>, currr: Option<Row>,
                   crows: seq<Row>, rrows: seq<Row>, ct0: Cursor, rt0: Cursor,
                   csrc: seq<Row>, rsrc: seq<Row>, canViewComment: Row -> bool,
                   canViewReview: Row -> bool, c0: Cursor, ghost remC: seq<Row>, ghost remR: seq<Row>)
    returns (activity': seq<Item>, curcr': Option<Row>, currr': Option<Row>,
             ghost remC': seq<Row>, ghost remR': seq<Row>)
    requires curcr.Some? || currr.Some?
    requires curcr.Some? || (crows == [] && !Truthy(ct0))
    requires currr.Some? || (rrows == [] && !Truthy(rt0))
    requires LoopInv(activity, curcr, crows, ct0, currr, rrows, rt0, remC, remR, csrc, rsrc,
                     canViewComment, canViewReview, c0)
    ensures |activity'| == |activity| + 1
    ensures |SlotSeq(curcr')| + |SlotSeq(currr')| < |SlotSeq(curcr)| + |SlotSeq(currr)|
    ensures LoopInv(activity', curcr', crows, ct0, currr', rrows, rt0, remC', remR', csrc, rsrc,
                    canViewComment, canViewReview, c0)
  {
    curcr', currr', remC', remR' := curcr, currr, remC, remR;
    ghost var strict := Descending(csrc) && Descending(rsrc);
    ghost var ordered := Sorted(csrc) && Sorted(rsrc);
    ghost var all := Merge(Filter(canViewComment, Pending(c0, csrc)), Filter(canViewReview, Pending(c0, rsrc)));
    if curcr.None? { Drained(ct0, csrc, canViewComment); }
    if currr.None? { Drained(rt0, rsrc, canViewReview); }
    if ordered {
      FutureHead(curcr, crows, ct0, csrc);
      FutureHead(currr, rrows, rt0, rsrc);
    }
    if Compare(curcr, currr) < 0 {
      if ordered {
        EmitInOrder(activity, curcr.value, Future(None, crows, ct0, csrc), Future(currr, rrows, rt0, rsrc), true);
      }
      ghost var restC := Remaining(None, crows, ct0, csrc, canViewComment);
      assert strict ==> remC == [curcr.value] + restC && Head(remR) == currr by {
        if strict {
          RemainingHead(curcr, crows, ct0, csrc, canViewComment);
          RemainingHead(currr, rrows, rt0, rsrc, canViewReview);
        }
      }
      if strict { EmitComment(activity, curcr.value, restC, remR, all); }
      activity' := activity + [Item(curcr.value, true)];
      curcr' := None;
      remC' := restC;
    } else {
      if ordered {
        CompareOrder(curcr, currr);
        EmitInOrder(activity, currr.value, Future(None, rrows, rt0, rsrc), Future(curcr, crows, ct0, csrc), false);
      }
      ghost var restR := Remaining(None, rrows, rt0, rsrc, canViewReview);
      assert strict ==> remR == [currr.value] + restR && Head(remC) == curcr by {
        if strict {
          RemainingHead(currr, rrows, rt0, rsrc, canViewReview);
          RemainingHead(curcr, crows, ct0, csrc, canViewComment);
        }
      }
      if strict { EmitReview(activity, currr.value, remC, restR, all); }
      activity' := activity + [Item(currr.value, false)];
      currr' := None;
      remR' := restR;
    }
  }

  /** Before the first turn a side may emit all its visible admitted rows,
      and its future is in feed order when its source is. */
  lemma {:induction false} StartSide(c0: Cursor, src: seq<Row>, canView: Row -> bool)
    ensures Remaining(None, [], c0, src, canView) == Filter(canView, Pending(c0, src))
    ensures Future(None, [], c0, src) == Pending(c0, src)
    ensures Sorted(src) ==> SideInOrder([], Future(None, [], c0, src))
  {
    RefilledFuture([], c0, src);
    assert Reverse<Row>([]) == [] && SlotSeq(None) == [];
    assert [] + Pending(c0, src) == Pending(c0, src);
    if Sorted(src) { PendingSorted(c0, src); }
  }

  /** Before the first turn each side may emit all its visible admitted rows,
      and on sorted sources nothing is out of order yet. */
  lemma {:induction false} StartState(c0: Cursor, csrc: seq<Row>, rsrc: seq<Row>,
                                      canViewComment: Row -> bool, canViewReview: Row -> bool)
    ensures LoopInv([], None, [], c0, None, [], c0,
                    Filter(canViewComment, Pending(c0, csrc)), Filter(canViewReview, Pending(c0, rsrc)),
                    csrc, rsrc, canViewComment, canViewReview, c0)
  {
    StartSide(c0, csrc, canViewComment);
    StartSide(c0, rsrc, canViewReview);
    ghost var all := Merge(Filter(canViewComment, Pending(c0, csrc)), Filter(canViewReview, Pending(c0, rsrc)));
    assert [] + all == all;
  }

  /** When the loop stops, what it emitted is the first `limit` items of the merge. */
  lemma {:induction false} TakeOfPrefix(activity: seq<Item>, rest: seq<Item>, m: seq<Item>, limit: int)
    requires activity + rest == m
    requires |activity| <= (if limit < 0 then 0 else limit)
    requires |activity| >= limit || rest == []
    ensures activity == Take(m, if limit < 0 then 0 else limit)
  {
    assert m[..|activity|] == activity;
  }

  /** `reviewerActivity`: parse the resume token, then run the merge loop. */
  method ReviewerActivity(csrc: seq<Row>, rsrc: seq<Row>, canViewComment: Row -> bool,
                          canViewReview: Row -> bool, t0: Option<string>, limit: int)
    returns (activity: seq<Item>)
    ensures |activity| <= (if limit < 0 then 0 else limit)
    ensures Visible(activity, csrc, rsrc, canViewComment, canViewReview)
    ensures t0.None? || !PhpTruthy(t0.value) ==> activity == []
    ensures Descending(csrc) && Descending(rsrc) ==>
      activity == Feed(csrc, rsrc, canViewComment, canViewReview, ParseToken(t0), limit)
    ensures Sorted(csrc) && Sorted(rsrc) ==> SortedItems(activity)
  {
    var c0 := ParseToken(t0);
    activity := ActivityLoop(csrc, rsrc, canViewComment, canViewReview, c0, limit);
  }

  /** The merge loop of `reviewerActivity` over the two buffered, paged
      streams, both starting from the parsed cursor `c0`. */
  method ActivityLoop(csrc: seq<Row>, rsrc: seq<Row>, canViewComment: Row -> bool,
                      canViewReview: Row -> bool, c0: Cursor, limit: int)
    returns (activity: seq<Item>)
    ensures |activity| <= (if limit < 0 then 0 else limit)
    ensures Visible(activity, csrc, rsrc, canViewComment, canViewReview)
    ensures !Truthy(c0) ==> activity == []
    ensures Descending(csrc) && Descending(rsrc) ==>
      activity == Feed(csrc, rsrc, canViewComment, canViewReview, c0, limit)
    ensures Sorted(csrc) && Sorted(rsrc) ==> SortedItems(activity)
  {
    var ct0, rt0 := c0, c0;
    activity := [];
    var crows: seq<Row>, rrows: seq<Row> := [], [];
    var curcr: Option<Row>, currr: Option<Row> := None, None;
    ghost var strict := Descending(csrc) && Descending(rsrc);
    ghost var allC := Filter(canViewComment, Pending(c0, csrc));
    ghost var allR := Filter(canViewReview, Pending(c0, rsrc));
    StartState(c0, csrc, rsrc, canViewComment, canViewReview);
    ghost var remC, remR := allC, allR;

    while |activity| < limit
      invariant |activity| <= (if limit < 0 then 0 else limit)
      invariant LoopInv(activity, curcr, crows, ct0, currr, rrows, rt0, remC, remR, csrc, rsrc,
                        canViewComment, canViewReview, c0)
      decreases Weight(ct0, csrc) + Weight(rt0, rsrc), |crows| + |rrows|,
        |SlotSeq(curcr)| + |SlotSeq(currr)|
    {
      // load the current comment, then the current review
      var restart;
      curcr, crows, ct0, currr, rrows, rt0, restart :=
        LoadBoth(activity, curcr, crows, ct0, currr, rrows, rt0, csrc, rsrc,
                 canViewComment, canViewReview, limit, c0, remC, remR);
      if restart {
        continue;
      }

      // if neither, ran out of activity
      if curcr.None? && currr.None? {
        Drained(ct0, csrc, canViewComment);
        Drained(rt0, rsrc, canViewReview);
        break;
      }

      // otherwise, choose the later one first
      activity, curcr, currr, remC, remR :=
        EmitLater(activity, curcr, currr, crows, rrows, ct0, rt0, csrc, rsrc,
                  canViewComment, canViewReview, c0, remC, remR);
    }
    if strict {
      TakeOfPrefix(activity, Merge(remC, remR), Merge(allC, allR), limit);
    }
  }
}
