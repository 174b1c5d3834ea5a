/** The command line of the jail helper: leading options, then one of three
    forms: `-d JAILDIR` (tear down only), `-m OLDDIR NEWDIR` (move) or
    `JAILDIR USER COMMAND` (build and run, after an optional teardown). */
module JailArgs {
  import opened Util

  /** The option flags and the `-l` link directory. */
  datatype Options = Options(
    dokill: bool, dolive: bool, domove: bool,
    verbose: bool, dryrun: bool, makepty: bool,
    linkdir: Option<string>)

  const NoOptions := Options(false, false, false, false, false, false, None)

  /** What the arguments ask for. */
  datatype Mode = Exec | KillOnly | Move

  datatype Parsed = Usage | Run(opts: Options, mode: Mode, positional: seq<string>)

  /** An option taking no value. */
  predicate IsFlag(a: string) {
    a == "-d" || a == "-f" || a == "-V" || a == "-n" || a == "-t" || a == "-s" || a == "-m"
  }

  /** One turn of the option loop: the options after the first argument and
      how many arguments it used, or nothing when it is not an option. */
  function OptionStep(args: seq<string>, o: Options): (r: Option<(Options, nat)>)
    ensures r.None? <==> !(|args| >= 1 && IsFlag(args[0])) && !(|args| >= 2 && args[0] == "-l")
    ensures r.Some? ==> 1 <= r.value.1 <= |args|
    ensures r.Some? ==> (o.dokill ==> r.value.0.dokill) && (o.domove ==> r.value.0.domove)
    ensures r.Some? ==> (o.dryrun ==> o.verbose) ==> (r.value.0.dryrun ==> r.value.0.verbose)
  {
    if |args| >= 1 && args[0] == "-d" then Some((o.(dokill := true), 1))
    else if |args| >= 1 && args[0] == "-f" then Some((o, 1))
    else if |args| >= 1 && args[0] == "-V" then Some((o.(verbose := true), 1))
    else if |args| >= 2 && args[0] == "-l" then Some((o.(linkdir := Some(StripSlashes(args[1], 0))), 2))
    else if |args| >= 1 && args[0] == "-n" then Some((o.(verbose := true, dryrun := true), 1))
    else if |args| >= 1 && args[0] == "-t" then Some((o.(makepty := true), 1))
    else if |args| >= 1 && args[0] == "-s" then Some((o.(dolive := true), 1))
    else if |args| >= 1 && args[0] == "-m" then Some((o.(domove := true), 1))
    else None
  }

  /** The option loop: consumes recognised options from the front of `args`
      and returns the options with the arguments left. */
  function ScanOptions(args: seq<string>, o: Options): (r: (Options, seq<string>))
    ensures |r.1| <= |args| && r.1 == args[|args| - |r.1|..]
    decreases |args|
  {
    match OptionStep(args, o)
    case None => (o, args)
    case Some((o', n)) => ScanOptions(args[n..], o')
  }

  /** The arguments the scan leaves never start with an option, `-n` always
      brings `-V` with it, and a `-d` or `-m` once seen stays. */
  lemma {:induction false} ScanOptionsStops(args: seq<string>, o: Options)
    requires o.dryrun ==> o.verbose
    ensures var (o', rest) := ScanOptions(args, o);
      && (o'.dryrun ==> o'.verbose)
      && !(|rest| >= 1 && IsFlag(rest[0])) && !(|rest| >= 2 && rest[0] == "-l")
      && (o.dokill ==> o'.dokill) && (o.domove ==> o'.domove)
    decreases |args|
  {
    match OptionStep(args, o)
    case None =>
    case Some((o', n)) => ScanOptionsStops(args[n..], o');
  }

  /** The checks after the option loop, on the arguments left. */
  function Validate(o: Options, rest: seq<string>): Parsed {
    if |rest| >= 1 && |rest[0]| > 0 && rest[0][0] == '-' then Usage
    else
      var argc := |rest| + 1;
      var doexec := (!o.dokill || argc == 4) && !o.domove;
      if (doexec && argc != 4)
        || (o.dokill && !doexec && argc != 2)
        || (o.domove && argc != 3)
        || (o.domove && (o.makepty || o.dolive || o.dokill))
      then Usage
      else if rest[0] == "" then Usage
      else Run(o, if doexec then Exec else if o.domove then Move else KillOnly, rest)
  }

  /** The arguments after the program name, read as `main` reads them. */
  function Parse(args: seq<string>): Parsed {
    var (o, rest) := ScanOptions(args, NoOptions);
    Validate(o, rest)
  }

  /** Every accepted command line has exactly the positional arguments its
      form needs, a first one that is neither empty nor an option, and a
      move never combined with `-t`, `-s` or `-d`. */
  lemma ParseAccepts(args: seq<string>)
    ensures match Parse(args)
      case Usage => true
      case Run(o, mode, pos) =>
        && |pos| >= 1 && pos[0] != "" && pos[0][0] != '-'
        && pos == args[|args| - |pos|..]
        && (mode == Exec <==> |pos| == 3 && !o.domove)
        && (mode == KillOnly <==> o.dokill && |pos| == 1)
        && (mode == Move <==> o.domove && |pos| == 2)
        && (mode == Move ==> !o.makepty && !o.dolive && !o.dokill)
        && (o.dryrun ==> o.verbose)
  {
    ScanOptionsStops(args, NoOptions);
  }

  /** `-d JAILDIR` only tears the jail down. */
  lemma ParseKillOnly()
    ensures Parse(["-d", "/j"]) == Run(NoOptions.(dokill := true), KillOnly, ["/j"])
  {
    var args := ["-d", "/j"];
    assert OptionStep(args, NoOptions) == Some((NoOptions.(dokill := true), 1));
    assert args[1..] == ["/j"];
    assert OptionStep(["/j"], NoOptions.(dokill := true)) == None;
  }

  /** `-m OLDDIR NEWDIR` moves a jail. */
  lemma ParseMove()
    ensures Parse(["-m", "/a", "/b"]) == Run(NoOptions.(domove := true), Move, ["/a", "/b"])
  {
    var args := ["-m", "/a", "/b"];
    assert OptionStep(args, NoOptions) == Some((NoOptions.(domove := true), 1));
    assert args[1..] == ["/a", "/b"];
    assert OptionStep(["/a", "/b"], NoOptions.(domove := true)) == None;
  }

  /** `-d` before the three arguments of a run tears down first, then runs. */
  lemma ParseKillThenExec()
    ensures Parse(["-d", "/j", "u", "c"]) == Run(NoOptions.(dokill := true), Exec, ["/j", "u", "c"])
  {
    var args := ["-d", "/j", "u", "c"];
    assert OptionStep(args, NoOptions) == Some((NoOptions.(dokill := true), 1));
    assert args[1..] == ["/j", "u", "c"];
    assert OptionStep(["/j", "u", "c"], NoOptions.(dokill := true)) == None;
  }

  /** An unknown option, and a move asking for a terminal, are refused. */
  lemma ParseRefuses()
    ensures Parse(["-x", "/j", "u", "c"]) == Usage
    ensures Parse(["-m", "-t", "/a", "/b"]) == Usage
  {
    assert OptionStep(["-x", "/j", "u", "c"], NoOptions) == None;
    var args := ["-m", "-t", "/a", "/b"];
    var o1 := NoOptions.(domove := true);
    assert OptionStep(args, NoOptions) == Some((o1, 1));
    assert args[1..] == ["-t", "/a", "/b"];
    assert OptionStep(["-t", "/a", "/b"], o1) == Some((o1.(makepty := true), 1));
    assert ["-t", "/a", "/b"][1..] == ["/a", "/b"];
    assert OptionStep(["/a", "/b"], o1.(makepty := true)) == None;
  }

  /** `main`'s option loop and checks. */
  method ParseArgs(args: seq<string>) returns (r: Parsed)
    ensures r == Parse(args)
  {
    var o := NoOptions;
    var rest := args;
    while true
      invariant ScanOptions(rest, o) == ScanOptions(args, NoOptions)
      decreases |rest|
    {
      if |rest| >= 1 && rest[0] == "-d" {
        o := o.(dokill := true);
        rest := rest[1..];
      } else if |rest| >= 1 && rest[0] == "-f" {
        rest := rest[1..];
      } else if |rest| >= 1 && rest[0] == "-V" {
        o := o.(verbose := true);
        rest := rest[1..];
      } else if |rest| >= 2 && rest[0] == "-l" {
        var linkdir := rest[1];
        while |linkdir| > 0 && linkdir[|linkdir| - 1] == '/'
          invariant StripSlashes(linkdir, 0) == StripSlashes(rest[1], 0)
        {
          linkdir := linkdir[..|linkdir| - 1];
        }
        o := o.(linkdir := Some(linkdir));
        rest := rest[2..];
      } else if |rest| >= 1 && rest[0] == "-n" {
        o := o.(verbose := true, dryrun := true);
        rest := rest[1..];
      } else if |rest| >= 1 && rest[0] == "-t" {
        o := o.(makepty := true);
        rest := rest[1..];
      } else if |rest| >= 1 && rest[0] == "-s" {
        o := o.(dolive := true);
        rest := rest[1..];
      } else if |rest| >= 1 && rest[0] == "-m" {
        o := o.(domove := true);
        rest := rest[1..];
      } else {
        break;
      }
    }
    r := Validate(o, rest);
  }
}
