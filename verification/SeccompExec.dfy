/**
 The argument list of the seccomp-exec trampoline: the printer in the service manager and the
 parser in the trampoline itself.
 */
module SeccompExec {

  const BINARY := "/sbin/nura-manager"
  const SUBCOMMAND := "seccomp-exec"

  /** What a unit configures; an empty string or list means "not configured". */
  datatype Confinement = Confinement(profile: string, mode: string, landlock: string, capDrop: seq<string>)

  datatype Options = Options(profile: string, mode: string, landlock: string, capDrop: seq<string>, cmd: string, cmdArgs: seq<string>)

  datatype ParseResult =
    | Parsed(opts: Options)
    | NeedsArgument(flag: string)
    | NeedsCommand
    | UnknownFlag(flag: string)
    | MissingSeparator

  // ----- comma-separated lists -----

  function Join(xs: seq<string>): string
  {
    if xs == [] then "" else if |xs| == 1 then xs[0] else xs[0] + "," + Join(xs[1..])
  }

  function Split(s: string): (r: seq<string>)
    ensures |r| > 0 && forall x :: x in r ==> ',' !in x
  {
    if s == [] then [""]
    else
      var rest := Split(s[1..]);
      if s[0] == ',' then [""] + rest
      else
        assert rest[0] in rest && forall x :: x in rest[1..] ==> x in rest;
        [[s[0]] + rest[0]] + rest[1..]
  }

  lemma {:induction false} SplitWhole(a: string)
    requires ',' !in a
    ensures Split(a) == [a]
  {
    if a != [] {
      SplitWhole(a[1..]);
      assert a == [a[0]] + a[1..];
    }
  }

  lemma {:induction false} SplitFirst(a: string, rest: string)
    requires ',' !in a
    ensures Split(a + "," + rest) == [a] + Split(rest)
  {
    var s := a + "," + rest;
    if a == [] {
      assert s == "," + rest && s[1..] == rest;
    } else {
      assert s[1..] == a[1..] + "," + rest;
      SplitFirst(a[1..], rest);
      assert a == [a[0]] + a[1..];
    }
  }

  lemma {:induction false} SplitJoin(xs: seq<string>)
    requires xs != [] && forall x :: x in xs ==> ',' !in x
    ensures Split(Join(xs)) == xs
  {
    if |xs| == 1 {
      SplitWhole(xs[0]);
    } else {
      SplitFirst(xs[0], Join(xs[1..]));
      SplitJoin(xs[1..]);
    }
  }

  /** A non-empty list survives joining and splitting exactly when no element has a comma. */
  lemma SplitJoinIff(xs: seq<string>)
    requires xs != []
    ensures Split(Join(xs)) == xs <==> forall x :: x in xs ==> ',' !in x
  {
    if forall x :: x in xs ==> ',' !in x {
      SplitJoin(xs);
    }
  }

  // ----- printer -----

  predicate Configured(u: Confinement)
  {
    u.profile != "" || u.landlock != "" || u.capDrop != []
  }

  function EffectiveMode(u: Confinement): string
  {
    if u.mode == "" then "enforce" else u.mode
  }

  function Flags(u: Confinement): seq<string>
  {
    SeccompFlags(u) + LandlockFlags(u) + CapFlags(u)
  }

  method WrapWithSeccomp(args: seq<string>, u: Confinement) returns (r: seq<string>)
    ensures !Configured(u) ==> r == args
    ensures Configured(u) ==> r == [BINARY, SUBCOMMAND] + Flags(u) + ["--"] + args
    // the trampoline, which sees everything after the first two words, recovers what was printed
    ensures Configured(u) ==> Parse(r[2..]) == Recovered(u, args)
  {
    hide Parse, Recovered, Join;
    ghost var head := [BINARY, SUBCOMMAND];
    var hasSeccomp := u.profile != "";
    var hasLandlock := u.landlock != "";
    var hasCaps := |u.capDrop| > 0;
    if !hasSeccomp && !hasLandlock && !hasCaps {
      return args;
    }
    var mode := u.mode;
    if mode == "" {
      mode := "enforce";
    }
    var prefix := [BINARY, SUBCOMMAND];
    if hasSeccomp {
      prefix := prefix + ["--profile", u.profile, "--mode", mode];
    }
    assert prefix == head + SeccompFlags(u);
    if hasLandlock {
      prefix := prefix + ["--landlock-profile", u.landlock];
    }
    assert prefix == head + SeccompFlags(u) + LandlockFlags(u);
    if hasCaps {
      prefix := prefix + ["--cap-drop", Join(u.capDrop)];
    }
    assert prefix == head + SeccompFlags(u) + LandlockFlags(u) + CapFlags(u);
    hide SeccompFlags, LandlockFlags, CapFlags;
    prefix := prefix + ["--"];
    Regroup(head, SeccompFlags(u), LandlockFlags(u), CapFlags(u), ["--"], args);
    ParsePrinted(u, args);
    r := prefix + args;
  }

  lemma Regroup(head: seq<string>, a: seq<string>, b: seq<string>, c: seq<string>, sep: seq<string>, args: seq<string>)
    ensures head + a + b + c + sep + args == head + (a + b + c) + sep + args
    ensures (head + (a + b + c) + sep + args)[|head|..] == a + b + c + sep + args
  {
    assert head + a + b + c == head + (a + b + c);
    Behind(head, a + b + c, sep, args);
  }

  lemma Behind(head: seq<string>, a: seq<string>, sep: seq<string>, args: seq<string>)
    ensures (head + a + sep + args)[|head|..] == a + sep + args
  {
  }

  // ----- parser -----

  const DEFAULTS := Options("", "enforce", "", [], "", [])

  /** One flag with its argument. */
  function SetFlag(opts: Options, flag: string, value: string): Options
    requires flag in {"--profile", "--mode", "--landlock-profile", "--cap-drop"}
  {
    if flag == "--profile" then opts.(profile := value)
    else if flag == "--mode" then opts.(mode := value)
    else if flag == "--landlock-profile" then opts.(landlock := value)
    else opts.(capDrop := Split(value))
  }

  function ParseFrom(args: seq<string>, opts: Options): ParseResult
    decreases |args|
  {
    if args == [] then MissingSeparator
    else if args[0] in {"--profile", "--mode", "--landlock-profile", "--cap-drop"} then
      if |args| == 1 then NeedsArgument(args[0]) else ParseFrom(args[2..], SetFlag(opts, args[0], args[1]))
    else if args[0] == "--" then
      if |args| == 1 then NeedsCommand else Parsed(opts.(cmd := args[1], cmdArgs := args[2..]))
    else UnknownFlag(args[0])
  }

  function Parse(args: seq<string>): ParseResult
  {
    ParseFrom(args, DEFAULTS)
  }

  /** The documented form: each setting comes from its own flag. */
  lemma ParseDocumented(profile: string, mode: string, landlock: string, caps: string, cmd: string, rest: seq<string>)
    ensures Parse(["--profile", profile, "--mode", mode, "--landlock-profile", landlock, "--cap-drop", caps, "--", cmd] + rest) ==
            Parsed(Options(profile, mode, landlock, Split(caps), cmd, rest))
  {
    hide ParseFrom, Split;
    var tail := ["--"] + ([cmd] + rest);
    var opts := DEFAULTS;
    ParseFlag("--profile", profile, ["--mode", mode, "--landlock-profile", landlock, "--cap-drop", caps] + tail, opts);
    opts := opts.(profile := profile);
    ParseFlag("--mode", mode, ["--landlock-profile", landlock, "--cap-drop", caps] + tail, opts);
    opts := opts.(mode := mode);
    ParseFlag("--landlock-profile", landlock, ["--cap-drop", caps] + tail, opts);
    opts := opts.(landlock := landlock);
    ParseFlag("--cap-drop", caps, tail, opts);
    ParseCommand([cmd] + rest, opts.(capDrop := Split(caps)));
    assert ["--profile", profile] + (["--mode", mode, "--landlock-profile", landlock, "--cap-drop", caps] + tail) ==
           ["--profile", profile, "--mode", mode, "--landlock-profile", landlock, "--cap-drop", caps, "--", cmd] + rest;
    assert ["--mode", mode] + (["--landlock-profile", landlock, "--cap-drop", caps] + tail) ==
           ["--mode", mode, "--landlock-profile", landlock, "--cap-drop", caps] + tail;
    assert ["--landlock-profile", landlock] + (["--cap-drop", caps] + tail) == ["--landlock-profile", landlock, "--cap-drop", caps] + tail;
    assert ([cmd] + rest)[1..] == rest;
  }

  method ParseSeccompExecArgs(args: seq<string>) returns (r: ParseResult)
    ensures r == Parse(args)
  {
    var opts := DEFAULTS;
    var i := 0;
    assert args[0..] == args;
    while i < |args|
      invariant 0 <= i <= |args|
      invariant Parse(args) == ParseFrom(args[i..], opts)
    {
      var rest := args[i..];
      if args[i] in {"--profile", "--mode", "--landlock-profile", "--cap-drop"} {
        if i + 1 >= |args| {
          return NeedsArgument(args[i]);
        }
        opts := SetFlag(opts, args[i], args[i + 1]);
        assert rest[2..] == args[i + 2..];
        i := i + 2;
      } else if args[i] == "--" {
        i := i + 1;
        if i >= |args| {
          return NeedsCommand;
        }
        opts := opts.(cmd := args[i], cmdArgs := args[i + 1..]);
        assert rest[2..] == args[i + 1..];
        return Parsed(opts);
      } else {
        return UnknownFlag(args[i]);
      }
    }
    return MissingSeparator;
  }

  lemma ParseFlag(flag: string, value: string, rest: seq<string>, opts: Options)
    requires flag in {"--profile", "--mode", "--landlock-profile", "--cap-drop"}
    ensures ParseFrom([flag, value] + rest, opts) == ParseFrom(rest, SetFlag(opts, flag, value))
  {
    assert ([flag, value] + rest)[2..] == rest;
  }

  lemma ParseCommand(args: seq<string>, opts: Options)
    ensures ParseFrom(["--"] + args, opts) ==
            if args == [] then NeedsCommand else Parsed(opts.(cmd := args[0], cmdArgs := args[1..]))
  {
    if args != [] {
      assert (["--"] + args)[2..] == args[1..];
    }
  }

  function SeccompFlags(u: Confinement): seq<string>
  {
    if u.profile != "" then ["--profile", u.profile, "--mode", EffectiveMode(u)] else []
  }

  function LandlockFlags(u: Confinement): seq<string>
  {
    if u.landlock != "" then ["--landlock-profile", u.landlock] else []
  }

  function CapFlags(u: Confinement): seq<string>
  {
    if u.capDrop != [] then ["--cap-drop", Join(u.capDrop)] else []
  }

  lemma ParseSeccompFlags(u: Confinement, rest: seq<string>, opts: Options)
    ensures ParseFrom(SeccompFlags(u) + rest, opts) ==
            ParseFrom(rest, if u.profile != "" then opts.(profile := u.profile, mode := EffectiveMode(u)) else opts)
  {
    hide ParseFrom;
    if u.profile != "" {
      var more := ["--mode", EffectiveMode(u)] + rest;
      assert SeccompFlags(u) + rest == ["--profile", u.profile] + more;
      ParseFlag("--profile", u.profile, more, opts);
      ParseFlag("--mode", EffectiveMode(u), rest, opts.(profile := u.profile));
    } else {
      assert SeccompFlags(u) + rest == rest;
    }
  }

  lemma ParseLandlockFlags(u: Confinement, rest: seq<string>, opts: Options)
    requires opts.landlock == ""
    ensures ParseFrom(LandlockFlags(u) + rest, opts) == ParseFrom(rest, opts.(landlock := u.landlock))
  {
    hide ParseFrom;
    if u.landlock != "" {
      ParseFlag("--landlock-profile", u.landlock, rest, opts);
    } else {
      assert LandlockFlags(u) + rest == rest;
    }
  }

  lemma ParseCapFlags(u: Confinement, rest: seq<string>, opts: Options)
    requires opts.capDrop == []
    ensures ParseFrom(CapFlags(u) + rest, opts) ==
            ParseFrom(rest, opts.(capDrop := if u.capDrop != [] then Split(Join(u.capDrop)) else []))
  {
    hide ParseFrom, Split, Join;
    if u.capDrop != [] {
      ParseFlag("--cap-drop", Join(u.capDrop), rest, opts);
    } else {
      assert CapFlags(u) + rest == rest;
    }
  }

  /** What the trampoline should end up with. */
  function Recovered(u: Confinement, args: seq<string>): ParseResult
  {
    if args == [] then NeedsCommand
    else Parsed(Options(u.profile, if u.profile != "" then EffectiveMode(u) else "enforce", u.landlock,
                        if u.capDrop != [] then Split(Join(u.capDrop)) else [], args[0], args[1..]))
  }

  /** Parsing what the printer wrote recovers every setting and the command, whatever the
      strings look like: flags in values or in the command are never mistaken for flags. */
  lemma ParsePrinted(u: Confinement, args: seq<string>)
    ensures Parse(Flags(u) + ["--"] + args) == Recovered(u, args)
  {
    hide ParseFrom, Split, Join;
    var tail := ["--"] + args;
    var locked := LandlockFlags(u) + (CapFlags(u) + tail);
    assert Flags(u) + ["--"] + args == SeccompFlags(u) + locked;
    var opts := DEFAULTS;
    ParseSeccompFlags(u, locked, opts);
    opts := if u.profile != "" then opts.(profile := u.profile, mode := EffectiveMode(u)) else opts;
    ParseLandlockFlags(u, CapFlags(u) + tail, opts);
    opts := opts.(landlock := u.landlock);
    ParseCapFlags(u, tail, opts);
    ParseCommand(args, opts.(capDrop := if u.capDrop != [] then Split(Join(u.capDrop)) else []));
  }

  /** Profiles and command always come back; the capability list exactly when no name contains a
      comma; the mode exactly when there is a seccomp profile or the mode is the default one. */
  lemma ConfinementRecoveredIff(u: Confinement, args: seq<string>)
    requires Configured(u) && args != []
    ensures var r := Parse(Flags(u) + ["--"] + args);
            && r.Parsed? && r.opts.profile == u.profile && r.opts.landlock == u.landlock
            && [r.opts.cmd] + r.opts.cmdArgs == args
            && (r.opts.capDrop == u.capDrop <==> forall c :: c in u.capDrop ==> ',' !in c)
            && (r.opts.mode == EffectiveMode(u) <==> u.profile != "" || EffectiveMode(u) == "enforce")
  {
    hide Parse, Flags;
    ParsePrinted(u, args);
    if u.capDrop != [] {
      SplitJoinIff(u.capDrop);
    }
    assert args == [args[0]] + args[1..];
  }

  /** A unit that is only confined by Landlock loses its configured mode. */
  lemma ModeIsLost()
    ensures var u := Confinement("", "log", "/etc/landlock.toml", []);
            var r := Parse(Flags(u) + ["--"] + ["/bin/service"]);
            Configured(u) && EffectiveMode(u) == "log" && r.Parsed? && r.opts.mode == "enforce"
  {
    hide Parse, Flags;
    ParsePrinted(Confinement("", "log", "/etc/landlock.toml", []), ["/bin/service"]);
  }
}
