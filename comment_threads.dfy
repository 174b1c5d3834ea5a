/** Comment threading as `comment_rows` performs it: every loaded comment is
    given the head of its reply thread and the set of contacts taking part
    in that thread. */
module CommentThreads {
  import opened Util

  /** The columns of a `PaperComment` row the threading reads. `replyTo` is 0
      for a comment that replies to nothing. */
  datatype CRow = CRow(commentId: int, replyTo: int, contactId: int, commentContactId: Option<int>)

  /** A loaded comment with the two properties `comment_rows` attaches. */
  datatype Comment = Comment(row: CRow, threadHead: int, threadContacts: set<int>)

  /** The contact a comment counts for: `commentContactId` when set, else `contactId`. */
  function ContactOf(r: CRow): int {
    if r.commentContactId.Some? then r.commentContactId.value else r.contactId
  }

  /** Comment ids are positive keys and a reply points to an earlier comment. */
  predicate RowOk(r: CRow) {
    0 < r.commentId && r.replyTo < r.commentId
  }

  predicate RowsOk(m: map<int, CRow>) {
    forall k :: k in m ==> m[k].commentId == k && RowOk(m[k])
  }

  /** The query result `comment_rows` receives: well-formed rows with distinct ids. */
  predicate Loadable(rows: seq<CRow>) {
    forall i :: 0 <= i < |rows| ==> RowOk(rows[i]) && FreshAt(rows, i)
  }

  /** The id of row `i` differs from the ids of all earlier rows. */
  predicate FreshAt(rows: seq<CRow>, i: int)
    requires 0 <= i < |rows|
  {
    forall j :: 0 <= j < i ==> rows[j].commentId != rows[i].commentId
  }

  /** The comments loaded from `rows`, by id. */
  function RowMap(rows: seq<CRow>): (m: map<int, CRow>)
    ensures forall k :: k in m ==> m[k].commentId == k && m[k] in rows
  {
    if rows == [] then map[]
    else
      var last := rows[|rows| - 1];
      RowMap(rows[..|rows| - 1])[last.commentId := last]
  }

  /** Follow `replyTo` links through the loaded comments `m`, starting at
      `id`, until a comment replies to nothing or to a comment not in `m`. */
  function Walk(m: map<int, CRow>, id: int): (h: int)
    requires RowsOk(m) && id in m
    ensures h in m && h <= id
    ensures m[h].replyTo == 0 || m[h].replyTo !in m
    decreases id
  {
    var p := m[id].replyTo;
    if p != 0 && p in m then Walk(m, p) else id
  }

  /** The comments of `crows` carry exactly the rows of `rm`. */
  predicate RowsMatch(crows: map<int, Comment>, rm: map<int, CRow>) {
    crows.Keys == rm.Keys && forall k :: k in crows ==> crows[k].row == rm[k]
  }

  /** The contacts of the comments whose thread head is `h`. */
  function ThreadContacts(crows: map<int, Comment>, h: int): set<int> {
    set k | k in crows && crows[k].threadHead == h :: ContactOf(crows[k].row)
  }

  predicate IsHead(crows: map<int, Comment>, k: int)
    requires k in crows
  {
    crows[k].threadHead == k
  }

  /** The comments after loading `row`, whose walk ended at `r`: the row is
      stored with head `r`, and its contact is added to the set of `r`. */
  function Load(before: map<int, Comment>, row: CRow, r: int): map<int, Comment>
    requires r in before || r == row.commentId
  {
    var n, cid := row.commentId, ContactOf(row);
    var m := before[n := Comment(row, n, {cid})];
    var m := m[n := m[n].(threadHead := r)];
    m[r := m[r].(threadContacts := m[r].threadContacts + {cid})]
  }

  /** `comment_rows`: load the rows in order, walking each one's `replyTo`
      chain through the comments loaded so far to find its thread head and
      adding its contact to that head's set; then give every comment that is
      not a head the set of its head. */
  method CommentRows(rows: seq<CRow>) returns (crows: map<int, Comment>)
    requires Loadable(rows)
    ensures RowsMatch(crows, RowMap(rows))
    ensures forall i :: 0 <= i < |rows| ==> LoadedAt(rows, i, crows)
    ensures forall k {:trigger crows[k]} :: k in crows ==>
      crows[k].threadHead in crows && IsHead(crows, crows[k].threadHead)
    ensures forall k :: k in crows ==>
      crows[k].threadContacts == ThreadContacts(crows, crows[k].threadHead)
  {
    var loaded := LoadComments(rows);
    RowMapKeys(rows);
    crows := ShareContacts(rows, loaded);
    SharedAll(rows, loaded, crows);
    SharedThreads(loaded, crows, RowMap(rows));
    LoadedKept(rows, loaded, crows);
  }

  /** The first pass of `comment_rows`: store each row, walk its `replyTo`
      chain to its head, and add its contact to the head's set. */
  method LoadComments(rows: seq<CRow>) returns (crows: map<int, Comment>)
    requires Loadable(rows)
    ensures RowsMatch(crows, RowMap(rows))
    ensures forall j :: 0 <= j < |rows| ==> LoadedAt(rows, j, crows)
    ensures Threaded(crows)
  {
    crows := map[];
    var i := 0;
    while i < |rows|
      invariant 0 <= i <= |rows|
      invariant FirstPass(rows, i, crows)
    {
      var row := rows[i];
      var n, cid := row.commentId, ContactOf(row);
      ghost var before := crows;
      assert RowsMatch(crows, RowMap(rows[..i])) && Threaded(crows);
      ghost var rm := RowMap(rows[..i + 1]);
      assert n !in before && RowsOk(rm) && RowsMatch(crows[n := Comment(row, n, {cid})], rm) by {
        LoadPrefix(rows, i, before);
      }
      crows := crows[n := Comment(row, n, {cid})];
      // walk the replyTo chain through the comments loaded so far
      var r := n;
      while crows[r].row.replyTo != 0 && crows[r].row.replyTo in crows
        invariant r in crows && Walk(rm, r) == Walk(rm, n)
        decreases r
      {
        r := crows[r].row.replyTo;
      }
      crows := crows[n := crows[n].(threadHead := r)];
      crows := crows[r := crows[r].(threadContacts := crows[r].threadContacts + {cid})];
      assert FirstPass(rows, i + 1, crows) by {
        LoadPrefix(rows, i, before);
        LoadStep(rows, i, before, r);
      }
      i := i + 1;
    }
    assert rows[..i] == rows;
    assert FirstPass(rows, |rows|, crows);
  }

  /** The second pass of `comment_rows`: every comment that is not a head
      takes a copy of its head's set. */
  method ShareContacts(rows: seq<CRow>, loaded: map<int, Comment>) returns (crows: map<int, Comment>)
    requires HeadsOk(loaded) && Ids(rows) <= loaded.Keys
    ensures crows.Keys == loaded.Keys
    ensures forall k :: k in crows ==> crows[k] == if k in Ids(rows) then Shared(loaded, k) else loaded[k]
  {
    crows := loaded;
    var i := 0;
    while i < |rows|
      invariant 0 <= i <= |rows|
      invariant crows.Keys == loaded.Keys
      invariant forall k :: k in crows ==> crows[k] == if k in Ids(rows[..i]) then Shared(loaded, k) else loaded[k]
    {
      var k := rows[i].commentId;
      assert Ids(rows[..i + 1]) == Ids(rows[..i]) + {k} by { IdsStep(rows, i); }
      assert rows[i] in rows;
      if crows[k].threadHead != k {
        crows := crows[k := crows[k].(threadContacts := crows[crows[k].threadHead].threadContacts)];
      }
      i := i + 1;
    }
    assert rows[..i] == rows;
  }

  /** What the first pass keeps true after `i` rows. */
  predicate FirstPass(rows: seq<CRow>, i: int, crows: map<int, Comment>)
    requires 0 <= i <= |rows|
  {
    && RowsMatch(crows, RowMap(rows[..i]))
    && (forall j :: 0 <= j < i ==> LoadedAt(rows, j, crows))
    && Threaded(crows)
  }

  /** Row `j` was loaded with the head its walk found among rows `0..j`. */
  predicate LoadedAt(rows: seq<CRow>, j: int, crows: map<int, Comment>)
    requires 0 <= j < |rows|
  {
    && RowsOk(RowMap(rows[..j + 1]))
    && rows[j].commentId in RowMap(rows[..j + 1])
    && rows[j].commentId in crows
    && crows[rows[j].commentId].threadHead == Walk(RowMap(rows[..j + 1]), rows[j].commentId)
  }

  /** What the first pass keeps true of the comments loaded so far: every
      head is a loaded comment that is its own head, a comment whose walk
      stops at once is a head, and a head holds the contacts of its thread. */
  predicate Threaded(crows: map<int, Comment>) {
    && HeadsOk(crows)
    && (forall k {:trigger crows[k]} :: k in crows && (crows[k].row.replyTo == 0 || crows[k].row.replyTo !in crows) ==>
          crows[k].threadHead == k)
    && (forall k {:trigger ThreadContacts(crows, k)} :: k in crows && crows[k].threadHead == k ==>
          crows[k].threadContacts == ThreadContacts(crows, k))
  }

  predicate HeadsOk(crows: map<int, Comment>) {
    forall k {:trigger crows[k]} :: k in crows ==> crows[k].threadHead in crows && IsHead(crows, crows[k].threadHead)
  }

  /** Before row `i` is stored: its id is new, and the rows loaded with it
      form a well-formed map that extends the one loaded before it. */
  lemma {:induction false} LoadPrefix(rows: seq<CRow>, i: int, before: map<int, Comment>)
    requires Loadable(rows) && 0 <= i < |rows|
    requires RowsMatch(before, RowMap(rows[..i]))
    ensures rows[i].commentId !in before
    ensures RowMap(rows[..i + 1]) == RowMap(rows[..i])[rows[i].commentId := rows[i]]
    ensures RowsOk(RowMap(rows[..i + 1]))
    ensures RowsMatch(before[rows[i].commentId := Comment(rows[i], rows[i].commentId, {ContactOf(rows[i])})],
                      RowMap(rows[..i + 1]))
  {
    var n := rows[i].commentId;
    assert RowMap(rows[..i + 1]) == RowMap(rows[..i])[n := rows[i]] by {
      assert rows[..i + 1][..i] == rows[..i] && rows[..i + 1][i] == rows[i];
    }
    assert n !in before by {
      assert FreshAt(rows, i);
    }
    assert RowsOk(RowMap(rows[..i + 1])) by {
      var prefix := rows[..i + 1];
      assert forall j :: 0 <= j < |prefix| ==> RowOk(prefix[j]);
      RowMapOk(prefix);
    }
    InsertMatch(before, Comment(rows[i], n, {ContactOf(rows[i])}), RowMap(rows[..i]), RowMap(rows[..i + 1]));
  }

  /** Storing a comment adds its row to those the comments carry. */
  lemma {:induction false} InsertMatch(before: map<int, Comment>, c: Comment, rm: map<int, CRow>, rm': map<int, CRow>)
    requires RowsMatch(before, rm) && rm' == rm[c.row.commentId := c.row]
    ensures RowsMatch(before[c.row.commentId := c], rm')
  {
  }

  /** Rows that are each well formed give a well-formed map. */
  lemma {:induction false} RowMapOk(rows: seq<CRow>)
    requires forall i :: 0 <= i < |rows| ==> RowOk(rows[i])
    ensures RowsOk(RowMap(rows))
  {
    var rm := RowMap(rows);
    forall k | k in rm ensures rm[k].commentId == k && RowOk(rm[k]) {
      var j :| 0 <= j < |rows| && rows[j] == rm[k];
    }
  }

  /** One step of the first pass keeps its invariants. */
  lemma {:induction false} LoadStep(rows: seq<CRow>, i: int, before: map<int, Comment>, r: int)
    requires Loadable(rows) && 0 <= i < |rows|
    requires FirstPass(rows, i, before)
    requires rows[i].commentId !in before
    requires RowMap(rows[..i + 1]) == RowMap(rows[..i])[rows[i].commentId := rows[i]]
    requires RowsOk(RowMap(rows[..i + 1]))
    requires r in RowMap(rows[..i + 1]) && Walk(RowMap(rows[..i + 1]), rows[i].commentId) == r
    ensures r in before || r == rows[i].commentId
    ensures FirstPass(rows, i + 1, Load(before, rows[i], r))
  {
    LoadMatch(before, rows[i], r, RowMap(rows[..i]), RowMap(rows[..i + 1]));
    LoadedRows(rows, i, before, Load(before, rows[i], r));
    WalkHead(before, rows[i], r, RowMap(rows[..i]), RowMap(rows[..i + 1]));
    LoadThreaded(before, rows[i], r);
  }

  /** Storing `row` adds its row to those the comments carry. */
  lemma {:induction false} LoadMatch(before: map<int, Comment>, row: CRow, r: int, rm: map<int, CRow>, rm': map<int, CRow>)
    requires RowsMatch(before, rm) && row.commentId !in before
    requires rm' == rm[row.commentId := row]
    requires r in before || r == row.commentId
    ensures RowsMatch(Load(before, row, r), rm')
    ensures Load(before, row, r).Keys == before.Keys + {row.commentId}
    ensures Load(before, row, r)[row.commentId].threadHead == r
    ensures forall k :: k in before ==> Load(before, row, r)[k].threadHead == before[k].threadHead
  {
  }

  /** Storing row `i` keeps every earlier row loaded and loads row `i`. */
  lemma {:induction false} LoadedRows(rows: seq<CRow>, i: int, before: map<int, Comment>, after: map<int, Comment>)
    requires 0 <= i < |rows|
    requires forall j :: 0 <= j < i ==> LoadedAt(rows, j, before)
    requires RowsOk(RowMap(rows[..i + 1])) && rows[i].commentId in RowMap(rows[..i + 1])
    requires after.Keys == before.Keys + {rows[i].commentId}
    requires after[rows[i].commentId].threadHead == Walk(RowMap(rows[..i + 1]), rows[i].commentId)
    requires forall k :: k in before ==> after[k].threadHead == before[k].threadHead
    ensures forall j :: 0 <= j < i + 1 ==> LoadedAt(rows, j, after)
  {
    forall j | 0 <= j < i + 1 ensures LoadedAt(rows, j, after) {
      if j < i {
        LoadedAtKept(rows, j, before, after);
      }
    }
  }

  /** A row stays loaded as long as its comment keeps its head. */
  lemma {:induction false} LoadedAtKept(rows: seq<CRow>, j: int, before: map<int, Comment>, after: map<int, Comment>)
    requires 0 <= j < |rows| && LoadedAt(rows, j, before)
    requires rows[j].commentId in after
    requires after[rows[j].commentId].threadHead == before[rows[j].commentId].threadHead
    ensures LoadedAt(rows, j, after)
  {
  }

  /** The walk of a new comment ends at itself or at a head loaded before,
      and ends at itself when its `replyTo` names no loaded comment. */
  lemma {:induction false} WalkHead(before: map<int, Comment>, row: CRow, r: int, rm0: map<int, CRow>, rm: map<int, CRow>)
    requires Threaded(before) && row.commentId !in before
    requires RowsOk(rm) && RowsMatch(before, rm0) && rm == rm0[row.commentId := row]
    requires row.commentId in rm && Walk(rm, row.commentId) == r
    ensures r == row.commentId || (r in before && IsHead(before, r))
    ensures row.replyTo == 0 || row.replyTo !in before ==> r == row.commentId
  {
    if r != row.commentId {
      assert before[r].row == rm[r];
      assert before[r].row.replyTo == 0 || before[r].row.replyTo !in before;
    }
  }

  /** Loading one comment `row` whose walk ended at `r` keeps `Threaded`. */
  lemma {:induction false} LoadThreaded(before: map<int, Comment>, row: CRow, r: int)
    requires Threaded(before) && row.commentId !in before && RowOk(row)
    requires r == row.commentId || (r in before && IsHead(before, r))
    requires row.replyTo == 0 || row.replyTo !in before ==> r == row.commentId
    ensures Threaded(Load(before, row, r))
  {
    var n, cid := row.commentId, ContactOf(row);
    var after := Load(before, row, r);
    assert HeadsOk(after);
    forall h | h in after
      ensures ThreadContacts(after, h) == ThreadContacts(before, h) + (if h == r then {cid} else {})
    {
      ThreadContactsLoad(before, n, Comment(row, r, {cid}), after, h);
    }
  }

  /** Adding comment `n` with head `c.threadHead` (and changing no head or
      row of the others) adds its contact to that head's thread only. */
  lemma {:induction false} ThreadContactsLoad(before: map<int, Comment>, n: int, c: Comment,
                                              after: map<int, Comment>, h: int)
    requires n !in before
    requires after.Keys == before.Keys + {n}
    requires after[n].row == c.row && after[n].threadHead == c.threadHead
    requires forall k :: k in before ==> after[k].row == before[k].row && after[k].threadHead == before[k].threadHead
    ensures ThreadContacts(after, h)
      == ThreadContacts(before, h) + (if c.threadHead == h then {ContactOf(c.row)} else {})
  {
  }

  /** The ids of `rows`. */
  function Ids(rows: seq<CRow>): set<int> {
    set r | r in rows :: r.commentId
  }

  lemma {:induction false} IdsStep(rows: seq<CRow>, i: int)
    requires 0 <= i < |rows|
    ensures Ids(rows[..i + 1]) == Ids(rows[..i]) + {rows[i].commentId}
  {
    assert rows[..i + 1] == rows[..i] + [rows[i]];
  }

  /** The rows loaded by id are keyed by exactly the ids of the rows. */
  lemma {:induction false} RowMapKeys(rows: seq<CRow>)
    ensures RowMap(rows).Keys == Ids(rows)
  {
    if rows != [] {
      var init := rows[..|rows| - 1];
      RowMapKeys(init);
      assert rows == init + [rows[|rows| - 1]];
    }
  }

  /** Comment `k` after the second pass: a head keeps its set, any other
      comment takes the set of its head. */
  function Shared(loaded: map<int, Comment>, k: int): Comment
    requires HeadsOk(loaded) && k in loaded
  {
    var h := loaded[k].threadHead;
    if h != k then loaded[k].(threadContacts := loaded[h].threadContacts) else loaded[k]
  }

  /** The second pass visits every loaded comment. */
  lemma {:induction false} SharedAll(rows: seq<CRow>, loaded: map<int, Comment>, crows: map<int, Comment>)
    requires HeadsOk(loaded) && loaded.Keys == RowMap(rows).Keys
    requires crows.Keys == loaded.Keys
    requires forall k :: k in crows ==> crows[k] == if k in Ids(rows) then Shared(loaded, k) else loaded[k]
    ensures forall k :: k in crows ==> crows[k] == Shared(loaded, k)
  {
    RowMapKeys(rows);
  }

  /** Sharing the heads' sets keeps rows and heads, and gives every comment
      the contacts of its thread. */
  lemma {:induction false} SharedThreads(loaded: map<int, Comment>, crows: map<int, Comment>, rm: map<int, CRow>)
    requires Threaded(loaded) && RowsMatch(loaded, rm)
    requires crows.Keys == loaded.Keys
    requires forall k :: k in crows ==> crows[k] == Shared(loaded, k)
    ensures RowsMatch(crows, rm)
    ensures forall k :: k in crows ==> crows[k].threadHead == loaded[k].threadHead
    ensures forall k {:trigger crows[k]} :: k in crows ==>
      crows[k].threadHead in crows && IsHead(crows, crows[k].threadHead)
    ensures forall k :: k in crows ==>
      crows[k].threadContacts == ThreadContacts(crows, crows[k].threadHead)
  {
    forall k | k in crows
      ensures crows[k].threadContacts == ThreadContacts(crows, crows[k].threadHead)
    {
      ThreadContactsSame(loaded, crows, crows[k].threadHead);
    }
  }

  /** Rows stay loaded while every comment keeps its head. */
  lemma {:induction false} LoadedKept(rows: seq<CRow>, loaded: map<int, Comment>, crows: map<int, Comment>)
    requires forall j :: 0 <= j < |rows| ==> LoadedAt(rows, j, loaded)
    requires crows.Keys == loaded.Keys
    requires forall k :: k in crows ==> crows[k].threadHead == loaded[k].threadHead
    ensures forall j :: 0 <= j < |rows| ==> LoadedAt(rows, j, crows)
  {
    forall j | 0 <= j < |rows| ensures LoadedAt(rows, j, crows) {
      LoadedAtKept(rows, j, loaded, crows);
    }
  }

  lemma {:induction false} ThreadContactsSame(a: map<int, Comment>, b: map<int, Comment>, h: int)
    requires a.Keys == b.Keys
    requires forall k :: k in a ==> a[k].row == b[k].row && a[k].threadHead == b[k].threadHead
    ensures ThreadContacts(a, h) == ThreadContacts(b, h)
  {
  }
}
