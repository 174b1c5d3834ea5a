/** The action log of a conference (`log` and `save_logs`): entries are
    written at once, or, while saving is on, grouped by actor and text and
    written one per group when saving is turned off.

    Texts are PHP strings, which are byte strings: each `char` of a text
    here stands for one byte, so lengths, positions and cuts count bytes. */
module ActionLog {
  import opened Util

  /** Who performed an action, as `log` receives it: nobody (any falsy
      value), a numeric contact id, or a user object with a `contactId`. */
  datatype Who = NoOne | Id(n: int) | Contact(contactId: int)

  /** A paper as an element of a paper-id list: a paper object or a number. */
  datatype PaperRef = PaperObj(paperId: int) | PaperNum(id: int)

  /** The `$pids` argument of `log`: absent (null), one paper object, a
      scalar id, or a list of papers. */
  datatype Pids = Absent | Paper(paperId: int) | Scalar(n: int) | List(refs: seq<PaperRef>)

  /** A row of the `ActionLog` table: the acting contact, the paper (NULL
      unless exactly one paper is involved) and the action text. */
  datatype Entry = Entry(contactId: int, paperId: Option<int>, action: string)

  /** The longest action text the table keeps. */
  const MaxAction := 4096

  /** The contact id written for `who`, as `(int) $who` yields it. */
  function WhoId(who: Who): int {
    match who
    case NoOne => 0
    case Id(n) => n
    case Contact(c) => c
  }

  /** `who` as it appears in a buffer key, as PHP renders it in a string. */
  function WhoText(who: Who): (r: string)
    ensures '|' !in r
  {
    match who
    case NoOne => "0"
    case Id(n) => IntToStringChars(n); IntToString(n)
    case Contact(c) => IntToStringChars(c); IntToString(c)
  }

  /** The buffer key of a group: `"who|text"`. */
  function Key(who: Who, text: string): string {
    WhoText(who) + "|" + text
  }

  /** The paper id of one list element. */
  function RefId(p: PaperRef): int {
    match p
    case PaperObj(id) => id
    case PaperNum(id) => id
  }

  /** The paper ids `log` derives from its `$pids` argument. */
  function PaperIds(pids: Pids): (ps: seq<int>)
    ensures pids.Absent? ==> ps == []
    ensures pids.Paper? ==> ps == [pids.paperId]
    ensures pids.Scalar? ==> ps == (if pids.n > 0 then [pids.n] else [])
    ensures pids.List? ==> |ps| == |pids.refs| && forall i :: 0 <= i < |ps| ==> ps[i] == RefId(pids.refs[i])
  {
    match pids
    case Absent => []
    case Paper(id) => [id]
    case Scalar(n) => if n > 0 then [n] else []
    case List(refs) => RefIds(refs)
  }

  function RefIds(refs: seq<PaperRef>): (ps: seq<int>)
    ensures |ps| == |refs| && forall i :: 0 <= i < |ps| ==> ps[i] == RefId(refs[i])
  {
    if refs == [] then [] else [RefId(refs[0])] + RefIds(refs[1..])
  }

  /** `", "`-separated decimal ids. */
  function Join(ps: seq<int>): string {
    if ps == [] then ""
    else if |ps| == 1 then IntToString(ps[0])
    else IntToString(ps[0]) + ", " + Join(ps[1..])
  }

  /** Reads back a `", "`-separated list of ids: each piece up to the next
      comma is cast as `(int)` does. */
  function SplitIds(s: string): seq<int>
    decreases |s|
  {
    match IndexOf(s, ',')
    case None => [IntCast(s)]
    case Some(i) => if i + 2 <= |s| then [IntCast(s[..i])] + SplitIds(s[i + 2..]) else [IntCast(s[..i])]
  }

  /** The list `Join` writes names every id, in order: reading it back
      gives the ids again. */
  lemma {:induction false} JoinRoundTrip(ps: seq<int>)
    requires ps != []
    ensures SplitIds(Join(ps)) == ps
  {
    var a := IntToString(ps[0]);
    IntToStringChars(ps[0]);
    IntCastOfString(ps[0]);
    assert ',' !in a;
    if |ps| == 1 {
      assert IndexOf(a, ',') == None;
    } else {
      var rest := Join(ps[1..]);
      var s := a + ", " + rest;
      assert s[|a|] == ',';
      match IndexOf(s, ',')
      case None =>
        assert s[|a|] in s;
      case Some(i) =>
        assert s[..|a|] == a;
        assert i == |a|;
        assert s[i + 2..] == rest;
        JoinRoundTrip(ps[1..]);
    }
  }

  /** The first `MaxAction` bytes of `s` (`substr($text, 0, 4096)`), which
      may end inside a multi-byte UTF-8 sequence. */
  function Truncate(s: string): (r: string)
    ensures |r| <= MaxAction && |r| <= |s|
    ensures r == s[..|r|]
    ensures |s| <= MaxAction ==> r == s
  {
    if |s| <= MaxAction then s else s[..MaxAction]
  }

  /** The entry a direct `log` call writes for contact `cid`, `text` and
      paper ids `ps`. */
  function MakeEntry(cid: int, text: string, ps: seq<int>): Entry {
    if |ps| == 0 then Entry(cid, None, Truncate(text))
    else if |ps| == 1 then Entry(cid, Some(ps[0]), Truncate(text))
    else Entry(cid, None, Truncate(text + " (papers " + Join(ps) + ")"))
  }

  /** What an entry records: the contact, the single paper if there is just
      one, and the text, cut to the table's limit, with the list of papers
      appended when there are several. */
  lemma EntryShape(cid: int, text: string, ps: seq<int>)
    ensures MakeEntry(cid, text, ps).contactId == cid
    ensures MakeEntry(cid, text, ps).paperId.Some? <==> |ps| == 1
    ensures |ps| == 1 ==> MakeEntry(cid, text, ps).paperId == Some(ps[0])
    ensures |MakeEntry(cid, text, ps).action| <= MaxAction
    ensures |text| <= MaxAction ==> MakeEntry(cid, text, ps).action[..|text|] == text
    ensures |ps| <= 1 ==> MakeEntry(cid, text, ps).action == Truncate(text)
    ensures |ps| > 1 && |text + " (papers " + Join(ps) + ")"| <= MaxAction ==>
      MakeEntry(cid, text, ps).action == text + " (papers " + Join(ps) + ")"
  {
    if |ps| > 1 && |text| <= MaxAction {
      var full := text + " (papers " + Join(ps) + ")";
      assert full[..|text|] == text;
    }
  }

  /** The position of the first `c` in `s`, as `strpos` finds it. */
  function IndexOf(s: string, c: char): (r: Option<nat>)
    ensures r.Some? ==> r.value < |s| && s[r.value] == c && c !in s[..r.value]
    ensures r.None? ==> c !in s
  {
    if s == [] then None
    else if s[0] == c then Some(0)
    else match IndexOf(s[1..], c)
      case None => None
      case Some(i) =>
        assert s[..i + 1] == [s[0]] + s[1..][..i];
        Some(i + 1)
  }

  lemma IntCastOfString(n: int)
    ensures IntCast(IntToString(n)) == n
  {
    if n < 0 {
      NatToStringDigits(-n);
      var s := IntToString(n);
      assert s[1..] == NatToString(-n);
    } else {
      NatToStringDigits(n);
      var s := NatToString(n);
      assert s[0] in s;
    }
  }

  /** The actor `log` sees when it is handed a key's prefix `s`: a falsy
      string (`""` or `"0"`) is nobody, any other is a numeric id. */
  function ParseWho(s: string): Who {
    if s == "" || s == "0" then NoOne else Id(IntCast(s))
  }

  /** The entry `save_logs` writes for buffer key `k` holding paper ids `ps`:
      the key is split at its first `|` into actor and text. */
  function FlushEntry(k: string, ps: seq<int>): Entry {
    match IndexOf(k, '|')
    case Some(pos) => MakeEntry(WhoId(ParseWho(k[..pos])), k[pos + 1..], ps)
    case None => MakeEntry(0, if |k| >= 1 then k[1..] else "", ps)
  }

  /** Splitting a key at its first `|` gives back the actor and the text it
      was made from, because the actor's rendering holds no `|`. */
  lemma {:induction false} SplitKey(who: Who, text: string)
    ensures IndexOf(Key(who, text), '|') == Some(|WhoText(who)|)
    ensures Key(who, text)[..|WhoText(who)|] == WhoText(who)
    ensures Key(who, text)[|WhoText(who)| + 1..] == text
  {
    var w, k := WhoText(who), Key(who, text);
    assert k[..|w|] == w;
    assert k[|w|] == '|';
    assert k[|w| + 1..] == text;
    IndexOfFirst(k, '|', |w|);
  }

  /** `IndexOf` finds a `c` that no earlier `c` precedes. */
  lemma {:induction false} IndexOfFirst(s: string, c: char, i: nat)
    requires i < |s| && s[i] == c && c !in s[..i]
    ensures IndexOf(s, c) == Some(i)
  {
    if i > 0 {
      assert s[0] in s[..i];
      assert s[1..][..i - 1] == s[..i][1..];
      IndexOfFirst(s[1..], c, i - 1);
    }
  }

  /** The entry written for a group is the one a direct call by the same
      actor with the same text and all the group's papers would write. */
  lemma {:induction false} FlushEntryOfKey(who: Who, text: string, ps: seq<int>)
    ensures FlushEntry(Key(who, text), ps) == MakeEntry(WhoId(who), text, ps)
  {
    SplitKey(who, text);
    var w := WhoText(who);
    assert WhoId(ParseWho(w)) == WhoId(who) by {
      match who {
        case NoOne =>
        case Id(n) => IntCastOfString(n);
        case Contact(c) => IntCastOfString(c);
      }
    }
  }

  /** The buffer after appending paper ids `ps` to group `k`, the group
      being created, last in order, if it is new and `ps` is not empty. */
  function Append(keys: seq<string>, groups: map<string, seq<int>>, k: string, ps: seq<int>): (seq<string>, map<string, seq<int>>) {
    if ps == [] then (keys, groups)
    else if k in groups then (keys, groups[k := groups[k] + ps])
    else (keys + [k], groups[k := ps])
  }

  /** The ids saved under `k`; none when `k` has no group. */
  function Ids(groups: map<string, seq<int>>, k: string): seq<int> {
    if k in groups then groups[k] else []
  }

  /** The entries of a flush: one per key, in key order. */
  function Flush(keys: seq<string>, groups: map<string, seq<int>>): (es: seq<Entry>)
    ensures |es| == |keys|
  {
    if keys == [] then []
    else [FlushEntry(keys[0], Ids(groups, keys[0]))] + Flush(keys[1..], groups)
  }

  /** The `i`th entry of a flush is the entry of the `i`th key. */
  lemma {:induction false} FlushAt(keys: seq<string>, groups: map<string, seq<int>>, i: int)
    requires 0 <= i < |keys|
    ensures Flush(keys, groups)[i] == FlushEntry(keys[i], Ids(groups, keys[i]))
    decreases i
  {
    if i > 0 {
      FlushAt(keys[1..], groups, i - 1);
    }
  }

  /** Logging twice with the same actor and text while saving, then
      flushing, writes one entry holding both calls' papers. */
  lemma {:induction false} GroupedCalls(who: Who, text: string, ps1: seq<int>, ps2: seq<int>)
    requires ps1 != [] || ps2 != []
    ensures var (k1, g1) := Append([], map[], Key(who, text), ps1);
            var (k2, g2) := Append(k1, g1, Key(who, text), ps2);
            Flush(k2, g2) == [MakeEntry(WhoId(who), text, ps1 + ps2)]
  {
    var k := Key(who, text);
    var (k1, g1) := Append([], map[], k, ps1);
    var (k2, g2) := Append(k1, g1, k, ps2);
    assert k2 == [k] && g2[k] == ps1 + ps2;
    FlushEntryOfKey(who, text, ps1 + ps2);
  }

  /** The logging state of a conference. */
  class Logger {
    /** `_save_logs !== false`: saving is on. */
    var saving: bool
    /** The keys of `_save_logs`, in insertion order. */
    var keys: seq<string>
    /** The paper ids saved under each key. */
    var groups: map<string, seq<int>>
    /** The rows written to the `ActionLog` table. */
    var written: seq<Entry>
    /** The actor and text each key was made from, key by key. */
    ghost var origin: seq<(Who, string)>

    ghost predicate Valid()
      reads this
    {
      && (!saving ==> keys == [] && groups == map[])
      && (forall i :: 0 <= i < |keys| ==> keys[i] !in keys[..i])
      && (forall k :: k in keys <==> k in groups)
      && |origin| == |keys|
      && (forall i {:trigger origin[i]} :: 0 <= i < |keys| ==> keys[i] == Key(origin[i].0, origin[i].1))
      && (forall k :: k in groups ==> groups[k] != [])
    }

    /** Not saving, so nothing is buffered. */
    ghost predicate Idle()
      reads this
    {
      !saving && keys == [] && groups == map[] && origin == []
    }

    constructor ()
      ensures Valid() && !saving && written == []
    {
      saving, keys, groups, written, origin := false, [], map[], [], [];
    }

    /** `log`: while saving, file each paper id under `"who|text"` and write
        nothing; otherwise write one entry. */
    method Log(text: string, who: Who, pids: Pids)
      requires Valid()
      modifies this
      ensures Valid() && saving == old(saving)
      ensures old(saving) ==> written == old(written)
                              && (keys, groups) == Append(old(keys), old(groups), Key(who, text), PaperIds(pids))
      ensures !old(saving) ==> written == old(written) + [MakeEntry(WhoId(who), text, PaperIds(pids))]
                               && keys == [] && groups == map[]
    {
      var ps := NormalizePids(pids);
      if saving {
        AddAllToGroup(who, text, ps);
      } else {
        written := written + [MakeEntry(WhoId(who), text, ps)];
      }
    }

    /** File every id of `ps` under the group of `who` and `text`, in order. */
    method AddAllToGroup(who: Who, text: string, ps: seq<int>)
      requires Valid() && saving
      modifies this
      ensures Valid() && saving && written == old(written)
      ensures (keys, groups) == Append(old(keys), old(groups), Key(who, text), ps)
    {
      var i := 0;
      while i < |ps|
        invariant 0 <= i <= |ps| && Valid() && saving
        invariant (keys, groups) == Append(old(keys), old(groups), Key(who, text), ps[..i])
        invariant written == old(written)
      {
        AddToGroup(who, text, ps[i]);
        assert (keys, groups) == Append(old(keys), old(groups), Key(who, text), ps[..i + 1]) by {
          AppendStep(old(keys), old(groups), Key(who, text), ps[..i], ps[i]);
          assert ps[..i + 1] == ps[..i] + [ps[i]];
        }
        i := i + 1;
      }
      assert ps[..i] == ps;
    }

    /** Append paper id `p` to the group of `who` and `text`
        (`$this->_save_logs["$who|$text"][] = $p`). */
    method AddToGroup(who: Who, text: string, p: int)
      requires Valid() && saving
      modifies this
      ensures Valid() && saving && written == old(written)
      ensures (keys, groups) == Append(old(keys), old(groups), Key(who, text), [p])
    {
      var k := Key(who, text);
      if k in groups {
        groups := groups[k := groups[k] + [p]];
      } else {
        keys, groups := keys + [k], groups[k := [p]];
        origin := origin + [(who, text)];
      }
    }

    /** `save_logs`: turning saving on starts an empty buffer; turning it
        off writes one entry per key, in key order, and drops the buffer. */
    method SaveLogs(on: bool)
      requires Valid()
      modifies this
      ensures Valid() && saving == on
      ensures on && old(saving) ==> keys == old(keys) && groups == old(groups)
      ensures on && !old(saving) ==> keys == [] && groups == map[]
      ensures on ==> written == old(written)
      ensures !on ==> written == old(written) + Flush(old(keys), old(groups))
      ensures !on ==> forall i :: 0 <= i < |old(keys)| ==>
        written[|old(written)| + i] == MakeEntry(WhoId(old(origin)[i].0), old(origin)[i].1,
                                                 old(groups)[old(keys)[i]])
    {
      if on && !saving {
        saving, keys, groups, origin := true, [], map[], [];
      } else if !on && saving {
        var xkeys, xgroups := keys, groups;
        ghost var xorigin := origin;
        saving, keys, groups, origin := false, [], map[], [];
        WriteGroups(xkeys, xgroups);
        FlushOrigins(xkeys, xgroups, xorigin);
      }
    }

    /** The loop of `save_logs` over a detached buffer: one `log` call per
        key, split at its first `|` into actor and text. */
    method WriteGroups(xkeys: seq<string>, xgroups: map<string, seq<int>>)
      requires Idle()
      modifies this
      ensures Idle()
      ensures written == old(written) + Flush(xkeys, xgroups)
    {
      var i := 0;
      while i < |xkeys|
        invariant 0 <= i <= |xkeys| && Idle()
        invariant written == old(written) + Flush(xkeys[..i], xgroups)
      {
        WriteNext(xkeys, i, xgroups, old(written));
        i := i + 1;
      }
      assert xkeys[..i] == xkeys;
    }

    /** The `i`th turn of that loop, after the entries of the keys before. */
    method WriteNext(xkeys: seq<string>, i: int, xgroups: map<string, seq<int>>, ghost start: seq<Entry>)
      requires 0 <= i < |xkeys| && Idle()
      requires written == start + Flush(xkeys[..i], xgroups)
      modifies this
      ensures Idle()
      ensures written == start + Flush(xkeys[..i + 1], xgroups)
    {
      var e := FlushEntry(xkeys[i], Ids(xgroups, xkeys[i]));
      WriteGroup(xkeys[i], Ids(xgroups, xkeys[i]));
      FlushPrefix(xkeys, i, xgroups);
      assert start + Flush(xkeys[..i], xgroups) + [e] == start + (Flush(xkeys[..i], xgroups) + [e]);
    }

    /** One turn of that loop: the key split at its first `|`, the ids
        passed on as a list of paper numbers. */
    method WriteGroup(k: string, ps: seq<int>)
      requires Idle()
      modifies this
      ensures Idle()
      ensures written == old(written) + [FlushEntry(k, ps)]
    {
      var whoText, text := SplitAtBar(k, ps);
      var pids := NumberList(ps);
      Log(text, ParseWho(whoText), pids);
    }

    /** The key split at its first `|`, found by `strpos` and cut out by
        two `substr` calls; without one, `strpos` gives false, so the actor
        is empty and the text starts after the first byte. */
    static method SplitAtBar(k: string, ghost ps: seq<int>) returns (whoText: string, text: string)
      ensures FlushEntry(k, ps) == MakeEntry(WhoId(ParseWho(whoText)), text, ps)
    {
      match IndexOf(k, '|') {
        case Some(pos) =>
          whoText, text := k[..pos], k[pos + 1..];
        case None =>
          whoText, text := "", if |k| >= 1 then k[1..] else "";
      }
    }

    /** The ids as a list of paper numbers, from which `log` reads them back. */
    static method NumberList(ps: seq<int>) returns (pids: Pids)
      ensures PaperIds(pids) == ps
    {
      var refs := seq(|ps|, j requires 0 <= j < |ps| => PaperNum(ps[j]));
      pids := List(refs);
    }
  }

  /** Each entry of a flush is the one a direct call by the actor and with
      the text its key was made from would write, with the key's papers. */
  lemma {:induction false} FlushOrigins(keys: seq<string>, groups: map<string, seq<int>>, origin: seq<(Who, string)>)
    requires forall k :: k in keys ==> k in groups
    requires |origin| == |keys| && forall i :: 0 <= i < |keys| ==> keys[i] == Key(origin[i].0, origin[i].1)
    ensures forall i :: 0 <= i < |keys| ==>
      Flush(keys, groups)[i] == MakeEntry(WhoId(origin[i].0), origin[i].1, groups[keys[i]])
  {
    forall i | 0 <= i < |keys|
      ensures Flush(keys, groups)[i] == MakeEntry(WhoId(origin[i].0), origin[i].1, groups[keys[i]])
    {
      FlushAt(keys, groups, i);
      FlushEntryOfKey(origin[i].0, origin[i].1, groups[keys[i]]);
    }
  }

  /** Appending ids one at a time appends them all. */
  lemma {:induction false} AppendStep(keys: seq<string>, groups: map<string, seq<int>>, k: string, ps: seq<int>, p: int)
    ensures var (k1, g1) := Append(keys, groups, k, ps);
            Append(k1, g1, k, [p]) == Append(keys, groups, k, ps + [p])
  {
    if ps == [] {
      assert ps + [p] == [p];
    } else if k in groups {
      assert groups[k] + ps + [p] == groups[k] + (ps + [p]);
      assert groups[k := groups[k] + ps][k := groups[k] + ps + [p]] == groups[k := groups[k] + (ps + [p])];
    } else {
      assert groups[k := ps][k := ps + [p]] == groups[k := ps + [p]];
    }
  }

  /** Flushing one more key of `keys` adds that key's entry. */
  lemma {:induction false} FlushPrefix(keys: seq<string>, i: int, groups: map<string, seq<int>>)
    requires 0 <= i < |keys|
    ensures Flush(keys[..i + 1], groups) == Flush(keys[..i], groups) + [FlushEntry(keys[i], Ids(groups, keys[i]))]
  {
    assert keys[..i + 1] == keys[..i] + [keys[i]];
    FlushSnoc(keys[..i], keys[i], groups);
  }

  lemma {:induction false} FlushSnoc(keys: seq<string>, k: string, groups: map<string, seq<int>>)
    ensures Flush(keys + [k], groups) == Flush(keys, groups) + [FlushEntry(k, Ids(groups, k))]
  {
    var f := Flush(keys + [k], groups);
    assert |f| == |keys| + 1;
    forall i | 0 <= i < |f| ensures f[i] == (Flush(keys, groups) + [FlushEntry(k, Ids(groups, k))])[i] {
      assert (keys + [k])[i] == if i < |keys| then keys[i] else k;
      FlushAt(keys + [k], groups, i);
      if i < |keys| {
        FlushAt(keys, groups, i);
      }
    }
  }

  /** The paper ids of `log`'s argument, collected as its `foreach` does. */
  method NormalizePids(pids: Pids) returns (ps: seq<int>)
    ensures ps == PaperIds(pids)
  {
    match pids {
      case Absent => ps := [];
      case Paper(id) => ps := [id];
      case Scalar(n) => ps := if n > 0 then [n] else [];
      case List(refs) =>
        ps := [];
        var i := 0;
        while i < |refs|
          invariant 0 <= i <= |refs| && |ps| == i
          invariant forall j :: 0 <= j < i ==> ps[j] == RefId(refs[j])
        {
          ps := ps + [RefId(refs[i])];
          i := i + 1;
        }
    }
  }
}
