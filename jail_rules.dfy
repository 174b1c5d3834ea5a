/** The `JAIL61` allowance file: a line-oriented list of `nojail [DIR]` and
    `allowjail DIR` rules, read word by word with `take_word`. */
module JailRules {
  import opened Util

  /** A blank `take_word` may skip: a space that is not a newline. */
  predicate Blank(c: char) {
    IsSpace(c) && c != '\n'
  }

  /** Where the leading blanks at `pos` end. */
  function SkipBlanks(str: string, pos: nat): (p: nat)
    requires pos <= |str|
    ensures pos <= p <= |str|
    ensures p < |str| ==> !Blank(str[p])
    decreases |str| - pos
  {
    if pos < |str| && Blank(str[pos]) then SkipBlanks(str, pos + 1) else pos
  }

  lemma {:induction false} SkipBlanksSkipsBlanks(str: string, pos: nat)
    requires pos <= |str|
    ensures forall i :: pos <= i < SkipBlanks(str, pos) ==> Blank(str[i])
    decreases |str| - pos
  {
    if pos < |str| && Blank(str[pos]) {
      SkipBlanksSkipsBlanks(str, pos + 1);
    }
  }

  /** Where the run of non-space characters at `pos` ends. */
  function WordEnd(str: string, pos: nat): (p: nat)
    requires pos <= |str|
    ensures pos <= p <= |str|
    ensures p < |str| ==> IsSpace(str[p])
    decreases |str| - pos
  {
    if pos < |str| && !IsSpace(str[pos]) then WordEnd(str, pos + 1) else pos
  }

  lemma {:induction false} WordEndSpansWord(str: string, pos: nat)
    requires pos <= |str|
    ensures forall i :: pos <= i < WordEnd(str, pos) ==> !IsSpace(str[i])
    decreases |str| - pos
  {
    if pos < |str| && !IsSpace(str[pos]) {
      WordEndSpansWord(str, pos + 1);
    }
  }

  /** A word and the position after it. */
  datatype Taken = Taken(word: string, pos: nat)

  /** `take_word`: skip blanks (never a newline), then take the longest run
      of non-space characters, which is empty at the end or at a newline. */
  function TakeWordSpec(str: string, pos: nat): (t: Taken)
    requires pos <= |str|
    ensures pos <= t.pos <= |str|
    ensures t.word != "" ==> t.pos > pos
    ensures t.word == "" && t.pos < |str| ==> str[t.pos] == '\n'
  {
    var s := SkipBlanks(str, pos);
    if s < |str| && !IsSpace(str[s]) then
      var e := WordEnd(str, s);
      Taken(str[s..e], e)
    else
      Taken("", s)
  }

  /** What `take_word` promises: it passes no newline, the word is the
      non-space run ending at the new position, only blanks come before it,
      and the run is maximal. */
  lemma TakeWordMeans(str: string, pos: nat)
    requires pos <= |str|
    ensures var t := TakeWordSpec(str, pos);
      && (forall i :: pos <= i < t.pos ==> str[i] != '\n')
      && (forall c :: c in t.word ==> !IsSpace(c))
      && |t.word| <= t.pos - pos && t.word == str[t.pos - |t.word|..t.pos]
      && (forall i :: pos <= i < t.pos - |t.word| ==> Blank(str[i]))
      && (t.word != "" ==> t.pos == |str| || IsSpace(str[t.pos]))
  {
    var s := SkipBlanks(str, pos);
    SkipBlanksSkipsBlanks(str, pos);
    if s < |str| && !IsSpace(str[s]) {
      WordEndSpansWord(str, s);
    }
  }

  /** `take_word`, advancing `pos` in place. */
  method TakeWord(str: string, pos: nat) returns (word: string, newPos: nat)
    requires pos <= |str|
    ensures Taken(word, newPos) == TakeWordSpec(str, pos)
  {
    newPos := pos;
    while newPos < |str| && str[newPos] != '\n' && IsSpace(str[newPos])
      invariant pos <= newPos <= |str| && SkipBlanks(str, newPos) == SkipBlanks(str, pos)
      decreases |str| - newPos
    {
      newPos := newPos + 1;
    }
    if newPos < |str| && !IsSpace(str[newPos]) {
      var start := newPos;
      while newPos < |str| && !IsSpace(str[newPos])
        invariant start <= newPos <= |str| && WordEnd(str, newPos) == WordEnd(str, start)
        decreases |str| - newPos
      {
        newPos := newPos + 1;
      }
      word := str[start..newPos];
    } else {
      word := "";
    }
  }

  /** Where the words left on a line end: take words until one is empty. */
  function SkipWords(str: string, pos: nat): (p: nat)
    requires pos <= |str|
    ensures pos <= p <= |str|
    ensures p == |str| || str[p] == '\n'
    decreases |str| - pos
  {
    var t := TakeWordSpec(str, pos);
    if t.word == "" then t.pos else SkipWords(str, t.pos)
  }

  /** Where the run of newlines at `pos` ends. */
  function SkipNewlines(str: string, pos: nat): (p: nat)
    requires pos <= |str|
    ensures pos <= p <= |str|
    ensures pos < |str| && str[pos] == '\n' ==> p > pos
    decreases |str| - pos
  {
    if pos < |str| && str[pos] == '\n' then SkipNewlines(str, pos + 1) else pos
  }

  /** One rule: its verb and its directory, which ends in `/` when given. */
  datatype Rule = Rule(verb: string, dir: string)

  /** A directory word with `/` appended when it lacks one. */
  function DirWord(w: string): (d: string)
    ensures w == "" ==> d == ""
    ensures w != "" ==> |d| > 0 && d[|d| - 1] == '/' && w <= d && |d| <= |w| + 1
  {
    if w != "" && w[|w| - 1] != '/' then w + "/" else w
  }

  /** One line of the scan: the first two words make the rule, the rest of
      the line is skipped, then the newlines after it. */
  function RuleLine(str: string, pos: nat): (r: (Rule, nat))
    requires pos <= |str|
    ensures pos <= r.1 <= |str|
  {
    var w1 := TakeWordSpec(str, pos);
    var w2 := TakeWordSpec(str, w1.pos);
    var p := SkipNewlines(str, SkipWords(str, w2.pos));
    (Rule(w1.word, DirWord(w2.word)), p)
  }

  /** Every line moves the scan forward, so the scan ends. */
  lemma RuleLineAdvances(str: string, pos: nat)
    requires pos < |str|
    ensures RuleLine(str, pos).1 > pos
  {
  }

  /** The rules of the file from `pos` on, one per line. */
  function Rules(str: string, pos: nat): seq<Rule>
    requires pos <= |str|
    decreases |str| - pos
  {
    if pos == |str| then []
    else
      RuleLineAdvances(str, pos);
      var (rule, next) := RuleLine(str, pos);
      [rule] + Rules(str, next)
  }

  /** A rule that forbids jails at `jaildir`: `nojail` alone, or `nojail DIR`
      with DIR a prefix of `jaildir`. */
  predicate Denies(r: Rule, jaildir: string) {
    r.verb == "nojail" && (r.dir == "" || r.dir <= jaildir)
  }

  /** A rule that allows jails at `jaildir`. */
  predicate Allows(r: Rule, jaildir: string) {
    r.verb == "allowjail" && r.dir != "" && r.dir <= jaildir
  }

  /** The outcome of a scan: refused (naming the directory of the rule, or
      "" for a bare `nojail`), or the allowance found so far. */
  datatype Verdict = Refused(dir: string) | Scanned(found: bool, superdir: string)

  /** The rules applied in order; the first denial stops the scan. */
  function Decide(rules: seq<Rule>, jaildir: string, found: bool, superdir: string): Verdict {
    if rules == [] then Scanned(found, superdir)
    else
      var r := rules[0];
      if Denies(r, jaildir) then Refused(r.dir)
      else if Allows(r, jaildir) then Decide(rules[1..], jaildir, true, r.dir)
      else Decide(rules[1..], jaildir, found, superdir)
  }

  /** Rule `i` is the last one that allows jails at `jaildir`. */
  predicate LastAllow(rules: seq<Rule>, jaildir: string, i: int) {
    && 0 <= i < |rules| && Allows(rules[i], jaildir)
    && forall k :: i < k < |rules| ==> !Allows(rules[k], jaildir)
  }

  /** A file refuses the jail exactly when one of its rules denies it.
      Otherwise the directory recorded is that of the last allowing rule,
      and with no allowing rule nothing changes. */
  lemma {:induction false} DecideMeans(rules: seq<Rule>, jaildir: string, found: bool, superdir: string)
    ensures Decide(rules, jaildir, found, superdir).Refused?
        <==> exists i :: 0 <= i < |rules| && Denies(rules[i], jaildir)
    ensures var v := Decide(rules, jaildir, found, superdir);
      v.Scanned? ==> forall i :: LastAllow(rules, jaildir, i) ==> v.found && v.superdir == rules[i].dir
    ensures var v := Decide(rules, jaildir, found, superdir);
      v.Scanned? && (forall i :: 0 <= i < |rules| ==> !Allows(rules[i], jaildir)) ==> v == Scanned(found, superdir)
  {
    if rules != [] {
      var r, rest := rules[0], rules[1..];
      assert forall i :: 0 < i < |rules| ==> rules[i] == rest[i - 1];
      if !Denies(r, jaildir) {
        var found', sd' := if Allows(r, jaildir) then true else found, if Allows(r, jaildir) then r.dir else superdir;
        DecideMeans(rest, jaildir, found', sd');
        var v := Decide(rest, jaildir, found', sd');
        forall i | LastAllow(rules, jaildir, i) ensures v.Scanned? ==> v.found && v.superdir == rules[i].dir {
          if i > 0 {
            assert LastAllow(rest, jaildir, i - 1);
          } else {
            assert forall k :: 0 <= k < |rest| ==> !Allows(rest[k], jaildir) by {
              forall k | 0 <= k < |rest| ensures !Allows(rest[k], jaildir) {
                assert rest[k] == rules[k + 1];
              }
            }
          }
        }
      }
    }
  }

  /** One line of the scan, advancing `pos` past it. */
  method ScanLine(str: string, pos: nat) returns (rule: Rule, newPos: nat)
    requires pos <= |str|
    ensures (rule, newPos) == RuleLine(str, pos)
  {
    var word1, word2, w;
    word1, newPos := TakeWord(str, pos);
    word2, newPos := TakeWord(str, newPos);
    var after2 := newPos;
    w, newPos := TakeWord(str, newPos);
    while |w| > 0
      invariant newPos <= |str|
      invariant SkipWords(str, after2) == if w == "" then newPos else SkipWords(str, newPos)
      decreases |str| - newPos + |w|
    {
      w, newPos := TakeWord(str, newPos);
    }
    var after := newPos;
    while newPos < |str| && str[newPos] == '\n'
      invariant after <= newPos <= |str|
      invariant SkipNewlines(str, after) == SkipNewlines(str, newPos)
      decreases |str| - newPos
    {
      newPos := newPos + 1;
    }
    if |word2| > 0 && word2[|word2| - 1] != '/' {
      word2 := word2 + "/";
    }
    rule := Rule(word1, word2);
  }

  /** The `JAIL61` scan over a file's contents, for a jail at `jaildir`. */
  method ScanJail61(str: string, jaildir: string, superdir: string) returns (v: Verdict)
    ensures v == Decide(Rules(str, 0), jaildir, false, superdir)
  {
    var pos: nat := 0;
    var found := false;
    var sd := superdir;
    while pos < |str|
      invariant pos <= |str|
      invariant Decide(Rules(str, 0), jaildir, false, superdir) == Decide(Rules(str, pos), jaildir, found, sd)
      decreases |str| - pos
    {
      var start := pos;
      var rule;
      rule, pos := ScanLine(str, pos);
      assert Rules(str, start) == [rule] + Rules(str, pos);
      var dirmatch := |rule.dir| > 0 && |rule.dir| <= |jaildir| && jaildir[..|rule.dir|] == rule.dir;
      if rule.verb == "nojail" && |rule.dir| == 0 {
        return Refused("");
      } else if rule.verb == "nojail" && dirmatch {
        return Refused(rule.dir);
      } else if rule.verb == "allowjail" && dirmatch {
        found := true;
        sd := rule.dir;
      }
    }
    v := Scanned(found, sd);
  }

  /** A directory is matched as a whole path component: `nojail /ho` does
      not refuse `/home/j`, while `nojail /home` does. */
  lemma DirMatchesComponents()
    ensures !Denies(Rule("nojail", DirWord("/ho")), "/home/j")
    ensures Denies(Rule("nojail", DirWord("/home")), "/home/j")
  {
    assert DirWord("/home") == "/home/";
    assert "/home/j"[..6] == "/home/";
  }
}
