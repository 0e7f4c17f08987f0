/** Moving option flags ahead of positional arguments, for a parser that stops at the first non-flag. */
module Args {
  import opened Basics

  datatype Flag = Flag(names: seq<string>, isBool: bool)

  datatype Command = Command(name: string, aliases: seq<string>, flags: seq<Flag>, subcommands: seq<Command>)

  datatype App = App(flags: seq<Flag>, commands: seq<Command>)

  function FindCommand(commands: seq<Command>, name: string): Option<Command> {
    if commands == [] then None
    else if commands[0].name == name || name in commands[0].aliases then Some(commands[0])
    else FindCommand(commands[1..], name)
  }

  predicate HasDash(arg: string) {
    |arg| > 0 && arg[0] == '-'
  }

  function TrimDashes(arg: string): string {
    if HasDash(arg) then TrimDashes(arg[1..]) else arg
  }

  /** Which names take the next argument as their value; a later flag of the same name decides. */
  type TakesValue = map<string, bool>

  function AddNames(m: TakesValue, names: seq<string>, takes: bool): TakesValue
    decreases |names|
  {
    if names == [] then m else AddNames(m[names[0] := takes], names[1..], takes)
  }

  function TakesValueOf(m: TakesValue, flags: seq<Flag>): TakesValue
    decreases |flags|
  {
    if flags == [] then m else TakesValueOf(AddNames(m, flags[0].names, !flags[0].isBool), flags[1..])
  }

  /** What one argument is, when it stands where an argument is expected. */
  datatype Kind = Terminator | Positional | Switch | Taking

  type Kinds = string -> Kind

  /** A taking option does not carry its value after "=" and consumes the next argument. */
  function KindOf(m: TakesValue, arg: string): Kind {
    if arg == "--" then Terminator
    else if arg == "-" || !HasDash(arg) then Positional
    else
      var name := TrimDashes(arg);
      if '=' !in name && name in m && m[name] then Taking else Switch
  }

  function KindsOf(m: TakesValue): Kinds {
    arg => KindOf(m, arg)
  }

  function Dashes(n: nat): string {
    if n == 0 then "" else "-" + Dashes(n - 1)
  }

  lemma {:induction false} TrimmedOfDashes(n: nat, name: string)
    requires name == "" || name[0] != '-'
    ensures TrimDashes(Dashes(n) + name) == name
    decreases n
  {
    if n > 0 {
      assert (Dashes(n) + name)[1..] == Dashes(n - 1) + name;
      TrimmedOfDashes(n - 1, name);
    } else {
      assert Dashes(n) + name == name;
    }
  }

  /**
   What an argument is, by what it looks like: "--" alone ends the options, "-" alone
   and whatever has no dash in front is positional, and the rest are options, of
   which those take a value that name a flag that does and carry none after "=".
   */
  lemma KindsByLooks(m: TakesValue, arg: string)
    ensures KindOf(m, arg) == Terminator <==> arg == "--"
    ensures KindOf(m, arg) == Positional <==> arg == "-" || arg == "" || arg[0] != '-'
  {
  }

  lemma OptionsByLooks(m: TakesValue, n: nat, name: string)
    requires n > 0 && name != "" && name[0] != '-'
    ensures KindOf(m, Dashes(n) + name) == if name in m && m[name] && '=' !in name then Taking else Switch
  {
    var arg := Dashes(n) + name;
    TrimmedOfDashes(n, name);
    assert arg[0] == '-' && arg[|arg| - 1] == name[|name| - 1] && |arg| >= 2;
    if n == 1 {
      assert arg[1] == name[0];
    }
  }

  // ----- two ways of reading an argument list -----

  datatype Opt = Opt(token: string, value: Option<string>)

  datatype Reading = Reading(opts: seq<Opt>, positional: seq<string>)

  function WithOpt(o: Opt, r: Reading): Reading {
    Reading([o] + r.opts, r.positional)
  }

  function WithPositional(p: string, r: Reading): Reading {
    Reading(r.opts, [p] + r.positional)
  }

  /** What the user meant: flags count wherever they stand, up to a literal "--". */
  function Interleaved(kind: Kinds, args: seq<string>): Reading
    decreases |args|
  {
    if args == [] then Reading([], [])
    else match kind(args[0])
      case Terminator => Reading([], args[1..])
      case Positional => WithPositional(args[0], Interleaved(kind, args[1..]))
      case Switch => WithOpt(Opt(args[0], None), Interleaved(kind, args[1..]))
      case Taking =>
        if |args| > 1 then WithOpt(Opt(args[0], Some(args[1])), Interleaved(kind, args[2..]))
        else Reading([Opt(args[0], None)], [])
  }

  /** What the flag package reads: it stops at the first argument that is not a flag. */
  function StopAtNonFlag(kind: Kinds, args: seq<string>): Reading
    decreases |args|
  {
    if args == [] then Reading([], [])
    else match kind(args[0])
      case Terminator => Reading([], args[1..])
      case Positional => Reading([], args)
      case Switch => WithOpt(Opt(args[0], None), StopAtNonFlag(kind, args[1..]))
      case Taking =>
        if |args| > 1 then WithOpt(Opt(args[0], Some(args[1])), StopAtNonFlag(kind, args[2..]))
        else Reading([Opt(args[0], None)], [])
  }

  function OptTokens(o: Opt): seq<string> {
    if o.value.Some? then [o.token, o.value.value] else [o.token]
  }

  function Tokens(opts: seq<Opt>): seq<string> {
    if opts == [] then [] else OptTokens(opts[0]) + Tokens(opts[1..])
  }

  function Positionals(positional: seq<string>): seq<string> {
    if positional == [] then [] else ["--"] + positional
  }

  /** Options first, then the positional arguments behind "--". */
  function Rearranged(r: Reading): seq<string> {
    Tokens(r.opts) + Positionals(r.positional)
  }

  /** How far the command words reach, and the flags in scope there. */
  function Walk(commands: seq<Command>, flags: seq<Flag>, rest: seq<string>): (r: (nat, seq<Flag>))
    ensures r.0 <= |rest|
    decreases |rest|
  {
    if rest == [] || HasDash(rest[0]) then (0, flags)
    else
      var c := FindCommand(commands, rest[0]);
      if c.None? then (0, flags)
      else
        var (n, f) := Walk(c.value.subcommands, flags + c.value.flags, rest[1..]);
        (n + 1, f)
  }

  function CommandWords(app: App, args: seq<string>): (n: nat)
    requires |args| > 0
    ensures n < |args|
  {
    Walk(app.commands, app.flags, args[1..]).0
  }

  function Scope(app: App, args: seq<string>): Kinds
    requires |args| > 0
  {
    KindsOf(TakesValueOf(map[], Walk(app.commands, app.flags, args[1..]).1))
  }

  /** The part after the program and command names, as the user meant it. */
  function Meant(app: App, args: seq<string>): Reading
    requires |args| > 0
  {
    Interleaved(Scope(app, args), args[1 + CommandWords(app, args)..])
  }

  function Reordered(app: App, args: seq<string>): seq<string> {
    if |args| < 2 then args
    else args[..1 + CommandWords(app, args)] + Rearranged(Meant(app, args))
  }

  // ----- the command words -----

  /** The first command with that name or alias. */
  lemma {:induction false} FindsByName(commands: seq<Command>, name: string)
    ensures var found := FindCommand(commands, name);
      && (found.None? <==> forall c <- commands :: c.name != name && name !in c.aliases)
      && (found.Some? ==> exists i :: 0 <= i < |commands| && found.value == commands[i] && Named(commands[i], name)
                                      && forall j | 0 <= j < i :: !Named(commands[j], name))
    decreases |commands|
  {
    if commands != [] && !Named(commands[0], name) {
      FindsByName(commands[1..], name);
      var found := FindCommand(commands[1..], name);
      if found.Some? {
        var i :| 0 <= i < |commands[1..]| && found.value == commands[1..][i] && Named(commands[1..][i], name)
              && forall j | 0 <= j < i :: !Named(commands[1..][j], name);
        forall j | 0 <= j < i + 1 ensures !Named(commands[j], name) {
          assert j > 0 ==> commands[j] == commands[1..][j - 1];
        }
        assert found.value == commands[i + 1];
      }
    }
  }

  predicate Named(c: Command, name: string) {
    c.name == name || name in c.aliases
  }

  /** The words name commands, each below the one before, and these flags are then in scope. */
  predicate Commands(commands: seq<Command>, flags: seq<Flag>, words: seq<string>, below: seq<Command>, scope: seq<Flag>)
    decreases |words|
  {
    if words == [] then below == commands && scope == flags
    else
      var c := FindCommand(commands, words[0]);
      !HasDash(words[0]) && c.Some? && Commands(c.value.subcommands, flags + c.value.flags, words[1..], below, scope)
  }

  /** The command words are as many as name commands: what follows is an option, no command there, or nothing. */
  lemma {:induction false} WalkStopsWhereItShould(commands: seq<Command>, flags: seq<Flag>, rest: seq<string>)
    returns (below: seq<Command>)
    ensures var (n, scope) := Walk(commands, flags, rest);
      && Commands(commands, flags, rest[..n], below, scope)
      && (n == |rest| || HasDash(rest[n]) || FindCommand(below, rest[n]).None?)
    decreases |rest|
  {
    if rest == [] || HasDash(rest[0]) || FindCommand(commands, rest[0]).None? {
      below := commands;
    } else {
      var c := FindCommand(commands, rest[0]).value;
      below := WalkStopsWhereItShould(c.subcommands, flags + c.flags, rest[1..]);
      var n := Walk(commands, flags, rest).0;
      assert rest[..n][1..] == rest[1..][..n - 1];
    }
  }

  // ----- the code -----

  /** Flag `i` is the last one with that name. */
  predicate Decides(flags: seq<Flag>, i: nat, name: string) {
    i < |flags| && name in flags[i].names && forall j | i < j < |flags| :: name !in flags[j].names
  }

  lemma {:induction false} NamesAdded(m: TakesValue, names: seq<string>, takes: bool, name: string)
    ensures name in names ==> name in AddNames(m, names, takes) && AddNames(m, names, takes)[name] == takes
    ensures name !in names ==> (name in AddNames(m, names, takes) <==> name in m)
    ensures name !in names && name in m ==> AddNames(m, names, takes)[name] == m[name]
    decreases |names|
  {
    if names != [] {
      NamesAdded(m[names[0] := takes], names[1..], takes, name);
    }
  }

  /** Of a name's flags the last one decides; a name of no flag stays what it was. */
  lemma {:induction false} LastFlagDecides(m: TakesValue, flags: seq<Flag>, name: string)
    ensures var m' := TakesValueOf(m, flags);
      && (forall i: nat | Decides(flags, i, name) :: name in m' && m'[name] == !flags[i].isBool)
      && ((forall i: nat :: !Decides(flags, i, name)) ==> (name in m' <==> name in m) && (name in m ==> m'[name] == m[name]))
    decreases |flags|
  {
    if flags != [] {
      var first, rest := flags[0], flags[1..];
      var m1 := AddNames(m, first.names, !first.isBool);
      NamesAdded(m, first.names, !first.isBool, name);
      LastFlagDecides(m1, rest, name);
      forall i: nat | i < |rest| ensures Decides(rest, i, name) <==> Decides(flags, i + 1, name) {
        DecidesShifted(flags, i, name);
      }
      if i: nat :| Decides(rest, i, name) {
        assert Decides(flags, i + 1, name) && !Decides(flags, 0, name);
      } else {
        NoneDecides(rest, name);
        assert Decides(flags, 0, name) <==> name in first.names;
      }
    }
  }

  lemma DecidesShifted(flags: seq<Flag>, i: nat, name: string)
    requires flags != [] && i < |flags[1..]|
    ensures Decides(flags[1..], i, name) <==> Decides(flags, i + 1, name)
  {
    var rest := flags[1..];
    if Decides(rest, i, name) {
      forall j | i + 1 < j < |flags| ensures name !in flags[j].names {
        assert flags[j] == rest[j - 1];
      }
    }
    if Decides(flags, i + 1, name) {
      forall j | i < j < |rest| ensures name !in rest[j].names {
        assert rest[j] == flags[j + 1];
      }
    }
  }

  lemma {:induction false} NoneDecides(flags: seq<Flag>, name: string)
    requires forall i: nat :: !Decides(flags, i, name)
    ensures forall f <- flags :: name !in f.names
    decreases |flags|
  {
    if flags != [] {
      forall i: nat ensures !Decides(flags[1..], i, name) {
        if i < |flags| - 1 {
          DecidesShifted(flags, i, name);
        }
      }
      NoneDecides(flags[1..], name);
      assert forall j | 0 < j < |flags| :: flags[j] in flags[1..];
      assert !Decides(flags, 0, name);
    }
  }

  /** Which names take a value: of the flags with a name, the last one says. */
  method FillTakesValue(flags: seq<Flag>) returns (m: TakesValue)
    ensures m == TakesValueOf(map[], flags)
    ensures forall i: nat, name | Decides(flags, i, name) :: name in m && m[name] == !flags[i].isBool
    ensures forall name <- m :: exists i: nat :: Decides(flags, i, name)
  {
    forall name ensures (forall i: nat | Decides(flags, i, name) ::
        name in TakesValueOf(map[], flags) && TakesValueOf(map[], flags)[name] == !flags[i].isBool)
      ensures (forall i: nat :: !Decides(flags, i, name)) ==> name !in TakesValueOf(map[], flags)
    {
      LastFlagDecides(map[], flags, name);
    }
    m := map[];
    assert flags[0..] == flags;
    for i := 0 to |flags|
      invariant TakesValueOf(m, flags[i..]) == TakesValueOf(map[], flags)
    {
      var names := flags[i].names;
      ghost var m0 := m;
      assert names[0..] == names;
      for j := 0 to |names|
        invariant AddNames(m, names[j..], !flags[i].isBool) == AddNames(m0, names, !flags[i].isBool)
      {
        assert names[j..][1..] == names[j + 1..];
        m := m[names[j] := !flags[i].isBool];
      }
      assert flags[i..][1..] == flags[i + 1..];
    }
  }

  lemma WalkNext(commands: seq<Command>, flags: seq<Flag>, rest: seq<string>, i: nat)
    requires i < |rest| && !HasDash(rest[i]) && FindCommand(commands, rest[i]).Some?
    ensures var c := FindCommand(commands, rest[i]).value;
      var next := Walk(c.subcommands, flags + c.flags, rest[i + 1..]);
      Walk(commands, flags, rest[i..]) == (next.0 + 1, next.1)
  {
    assert rest[i..][1..] == rest[i + 1..];
  }

  lemma WalkStops(commands: seq<Command>, flags: seq<Flag>, rest: seq<string>, i: nat)
    requires i <= |rest| && (i < |rest| ==> HasDash(rest[i]) || FindCommand(commands, rest[i]).None?)
    ensures Walk(commands, flags, rest[i..]) == (0, flags)
  {
  }

  method ReorderArgs(app: App, args: seq<string>) returns (out: seq<string>)
    ensures out == Reordered(app, args)
  {
    if |args| < 2 {
      return args;
    }
    var rest := args[1..];
    var flags, commands, i := app.flags, app.commands, 0;
    assert rest[0..] == rest;
    while i < |rest|
      invariant 0 <= i <= |rest|
      invariant Walk(app.commands, app.flags, rest).0 == i + Walk(commands, flags, rest[i..]).0
      invariant Walk(app.commands, app.flags, rest).1 == Walk(commands, flags, rest[i..]).1
    {
      if HasDash(rest[i]) {
        break;
      }
      var cmd := FindCommand(commands, rest[i]);
      if cmd.None? {
        break;
      }
      WalkNext(commands, flags, rest, i);
      flags, commands := flags + cmd.value.flags, cmd.value.subcommands;
      i := i + 1;
    }
    WalkStops(commands, flags, rest, i);
    out := args[..1 + i];
    var takesValue := FillTakesValue(flags);
    var kind := KindsOf(takesValue);
    assert kind == Scope(app, args) && i == CommandWords(app, args);
    assert rest[i..] == args[1 + i..];
    var opts, positional := SplitArgs(kind, rest[i..]);
    ghost var words := out;
    out := out + opts;
    if |positional| > 0 {
      out := out + ["--"] + positional;
    }
    assert out == words + (opts + Positionals(positional));
  }

  /** What the two lists and the arguments from `i` on still add up to. */
  ghost predicate Progress(goal: Reading, opts: seq<string>, positional: seq<string>, later: Reading) {
    Tokens(goal.opts) == opts + Tokens(later.opts) && goal.positional == positional + later.positional
  }

  lemma Advance(kind: Kinds, goal: Reading, rest: seq<string>, i: nat, opts: seq<string>, positional: seq<string>)
    requires i < |rest| && Progress(goal, opts, positional, Interleaved(kind, rest[i..]))
    ensures var n := FirstWidth(kind, rest[i..]);
      match kind(rest[i])
      case Terminator => Progress(goal, opts, positional + rest[i + 1..], Reading([], []))
      case Positional => Progress(goal, opts, positional + [rest[i]], Interleaved(kind, rest[i + 1..]))
      case _ => i + n <= |rest| && Progress(goal, opts + rest[i .. i + n], positional, Interleaved(kind, rest[i + n..]))
  {
    var n := FirstWidth(kind, rest[i..]);
    ReadsFirst(kind, rest[i..]);
    assert rest[i..][1..] == rest[i + 1..];
    assert rest[i..][n..] == rest[i + n..] && rest[i..][..n] == rest[i .. i + n];
  }

  /** The main loop: an index over the remaining arguments, two growing lists. */
  method SplitArgs(kind: Kinds, rest: seq<string>) returns (opts: seq<string>, positional: seq<string>)
    ensures var r := Interleaved(kind, rest);
      opts == Tokens(r.opts) && positional == r.positional
  {
    opts, positional := [], [];
    var i := 0;
    ghost var goal := Interleaved(kind, rest);
    assert rest[0..] == rest;
    while i < |rest|
      invariant 0 <= i <= |rest|
      invariant Progress(goal, opts, positional, Interleaved(kind, rest[i..]))
    {
      Advance(kind, goal, rest, i, opts, positional);
      var arg := rest[i];
      match kind(arg)
      case Terminator =>
        positional := positional + rest[i + 1..];
        i := |rest|;
      case Positional =>
        positional := positional + [arg];
        i := i + 1;
      case Switch =>
        assert rest[i .. i + 1] == [arg];
        opts := opts + [arg];
        i := i + 1;
      case Taking =>
        if i + 1 < |rest| {
          assert opts + rest[i .. i + 2] == opts + [arg] + [rest[i + 1]];
          opts := opts + [arg];
          i := i + 1;
          opts := opts + [rest[i]];
        } else {
          assert rest[i .. i + 1] == [arg];
          opts := opts + [arg];
        }
        i := i + 1;
    }
  }

  /** How many arguments the first one uses up. */
  function FirstWidth(kind: Kinds, args: seq<string>): nat
    requires args != []
  {
    if kind(args[0]) == Taking && |args| > 1 then 2 else 1
  }

  /** What the first argument adds to each of the two lists. */
  lemma ReadsFirst(kind: Kinds, args: seq<string>)
    requires args != []
    ensures var r := Interleaved(kind, args); var n := FirstWidth(kind, args); var later := Interleaved(kind, args[n..]);
      match kind(args[0])
      case Terminator => Tokens(r.opts) == [] && r.positional == args[1..]
      case Positional => Tokens(r.opts) == Tokens(later.opts) && r.positional == [args[0]] + later.positional
      case _ => Tokens(r.opts) == args[..n] + Tokens(later.opts) && r.positional == later.positional
  {
    var r := Interleaved(kind, args);
    if kind(args[0]) == Switch || kind(args[0]) == Taking {
      assert r.opts[1..] == Interleaved(kind, args[FirstWidth(kind, args)..]).opts;
      assert OptTokens(r.opts[0]) == args[..FirstWidth(kind, args)];
    }
  }

  // ----- what reordering keeps -----

  predicate OptOk(kind: Kinds, o: Opt) {
    if o.value.Some? then kind(o.token) == Taking else kind(o.token) == Switch
  }

  /** Every option has the value it takes. */
  predicate OptsOk(kind: Kinds, opts: seq<Opt>) {
    forall i | 0 <= i < |opts| :: OptOk(kind, opts[i])
  }

  function Last(opts: seq<Opt>): Opt
    requires opts != []
  {
    opts[|opts| - 1]
  }

  function AllButLast(opts: seq<Opt>): seq<Opt>
    requires opts != []
  {
    opts[..|opts| - 1]
  }

  /** The last option takes a value and has none. */
  predicate Dangling(kind: Kinds, r: Reading) {
    r.opts != [] && Last(r.opts).value.None? && kind(Last(r.opts).token) == Taking
  }

  predicate AllPositional(kind: Kinds, ps: seq<string>) {
    forall i | 0 <= i < |ps| :: kind(ps[i]) == Positional
  }

  /** Only the last option can lack its value, and then no "--" was met. */
  predicate Shaped(kind: Kinds, r: Reading) {
    if Dangling(kind, r) then OptsOk(kind, AllButLast(r.opts)) && AllPositional(kind, r.positional)
    else OptsOk(kind, r.opts)
  }

  lemma ShapedWithOpt(kind: Kinds, o: Opt, later: Reading)
    requires OptOk(kind, o) && Shaped(kind, later)
    ensures Shaped(kind, WithOpt(o, later))
  {
    if later.opts != [] {
      assert AllButLast([o] + later.opts) == [o] + AllButLast(later.opts);
    }
  }

  lemma ShapedWithPositional(kind: Kinds, p: string, later: Reading)
    requires kind(p) == Positional && Shaped(kind, later)
    ensures Shaped(kind, WithPositional(p, later))
  {
  }

  lemma {:induction false} InterleavedShape(kind: Kinds, args: seq<string>)
    ensures Shaped(kind, Interleaved(kind, args))
    decreases |args|
  {
    if args != [] {
      match kind(args[0])
      case Terminator =>
      case Positional =>
        InterleavedShape(kind, args[1..]);
        ShapedWithPositional(kind, args[0], Interleaved(kind, args[1..]));
      case Switch =>
        InterleavedShape(kind, args[1..]);
        ShapedWithOpt(kind, Opt(args[0], None), Interleaved(kind, args[1..]));
      case Taking =>
        if |args| > 1 {
          InterleavedShape(kind, args[2..]);
          ShapedWithOpt(kind, Opt(args[0], Some(args[1])), Interleaved(kind, args[2..]));
        }
    }
  }

  function WithOpts(opts: seq<Opt>, r: Reading): Reading {
    Reading(opts + r.opts, r.positional)
  }

  /** One complete option at the front is read as it is, by both readings. */
  lemma ReadsOption(kind: Kinds, o: Opt, later: seq<string>)
    requires OptOk(kind, o)
    ensures Interleaved(kind, OptTokens(o) + later) == WithOpt(o, Interleaved(kind, later))
    ensures StopAtNonFlag(kind, OptTokens(o) + later) == WithOpt(o, StopAtNonFlag(kind, later))
  {
    var all := OptTokens(o) + later;
    assert all[0] == o.token && all[|OptTokens(o)|..] == later;
    assert o.value.Some? ==> all[1] == o.value.value;
  }

  lemma WithOptsStep(opts: seq<Opt>, r: Reading)
    requires opts != []
    ensures WithOpt(opts[0], WithOpts(opts[1..], r)) == WithOpts(opts, r)
  {
    assert [opts[0]] + (opts[1..] + r.opts) == opts + r.opts;
  }

  /** Complete options at the front are read as they are, by both readings. */
  lemma {:induction false} ReadsOptions(kind: Kinds, opts: seq<Opt>, tail: seq<string>)
    requires OptsOk(kind, opts)
    ensures Interleaved(kind, Tokens(opts) + tail) == WithOpts(opts, Interleaved(kind, tail))
    ensures StopAtNonFlag(kind, Tokens(opts) + tail) == WithOpts(opts, StopAtNonFlag(kind, tail))
    decreases |opts|
  {
    if opts == [] {
      assert Tokens(opts) + tail == tail;
    } else {
      var later := Tokens(opts[1..]) + tail;
      assert Tokens(opts) + tail == OptTokens(opts[0]) + later;
      ReadsOption(kind, opts[0], later);
      ReadsOptions(kind, opts[1..], tail);
      WithOptsStep(opts, Interleaved(kind, tail));
      WithOptsStep(opts, StopAtNonFlag(kind, tail));
    }
  }

  lemma {:induction false} ReadsPositionals(kind: Kinds, ps: seq<string>)
    requires AllPositional(kind, ps)
    ensures Interleaved(kind, ps) == Reading([], ps)
    decreases |ps|
  {
    if ps != [] {
      ReadsPositionals(kind, ps[1..]);
    }
  }

  lemma {:induction false} TokensSplit(opts: seq<Opt>)
    requires opts != []
    ensures Tokens(opts) == Tokens(AllButLast(opts)) + OptTokens(Last(opts))
    decreases |opts|
  {
    if |opts| > 1 {
      assert opts[1..] != [] && Last(opts[1..]) == Last(opts) && AllButLast(opts[1..]) == AllButLast(opts)[1..];
      TokensSplit(opts[1..]);
    }
  }

  /** The reading is damaged exactly when an option without its value would swallow the "--". */
  predicate SwallowsTerminator(kind: Kinds, r: Reading) {
    Dangling(kind, r) && r.positional != []
  }

  /** What the result is read as in that case: the terminator has become the option's value. */
  function Swallowed(r: Reading): Reading
    requires r.opts != []
  {
    Reading(AllButLast(r.opts) + [Opt(Last(r.opts).token, Some("--"))], r.positional)
  }

  lemma ReadsSwallowedTail(kind: Kinds, token: string, ps: seq<string>, tail: seq<string>)
    requires kind(token) == Taking && ps != [] && AllPositional(kind, ps) && tail == [token] + (["--"] + ps)
    ensures var r := Reading([Opt(token, Some("--"))], ps);
      Interleaved(kind, tail) == r && StopAtNonFlag(kind, tail) == r
  {
    ReadsPositionals(kind, ps);
    assert tail[2..] == ps && tail[1] == "--" && tail[0] == token;
    assert kind(ps[0]) == Positional;
  }

  lemma ReadsSwallowed(kind: Kinds, args: seq<string>)
    requires SwallowsTerminator(kind, Interleaved(kind, args))
    ensures var r := Interleaved(kind, args);
      && Interleaved(kind, Rearranged(r)) == Swallowed(r)
      && StopAtNonFlag(kind, Rearranged(r)) == Swallowed(r)
  {
    var r := Interleaved(kind, args);
    var tail := OptTokens(Last(r.opts)) + Positionals(r.positional);
    InterleavedShape(kind, args);
    TokensSplit(r.opts);
    assert Rearranged(r) == Tokens(AllButLast(r.opts)) + tail;
    ReadsOptions(kind, AllButLast(r.opts), tail);
    ReadsSwallowedTail(kind, Last(r.opts).token, r.positional, tail);
  }

  lemma ReadsBackDangling(kind: Kinds, r: Reading)
    requires Dangling(kind, r) && r.positional == [] && OptsOk(kind, AllButLast(r.opts))
    ensures StopAtNonFlag(kind, Rearranged(r)) == r && Interleaved(kind, Rearranged(r)) == r
  {
    var last := Last(r.opts);
    TokensSplit(r.opts);
    assert Rearranged(r) == Tokens(AllButLast(r.opts)) + [last.token];
    ReadsOptions(kind, AllButLast(r.opts), [last.token]);
    assert last == Opt(last.token, None) && r.opts == AllButLast(r.opts) + [last];
  }

  lemma ReadsBackComplete(kind: Kinds, r: Reading)
    requires kind("--") == Terminator && OptsOk(kind, r.opts)
    ensures StopAtNonFlag(kind, Rearranged(r)) == r && Interleaved(kind, Rearranged(r)) == r
  {
    var tail := Positionals(r.positional);
    ReadsOptions(kind, r.opts, tail);
    assert tail != [] ==> tail[1..] == r.positional && tail[0] == "--";
    assert r.opts + [] == r.opts;
  }

  lemma ReadsBack(kind: Kinds, args: seq<string>)
    requires kind("--") == Terminator && !SwallowsTerminator(kind, Interleaved(kind, args))
    ensures var r := Interleaved(kind, args);
      StopAtNonFlag(kind, Rearranged(r)) == r && Interleaved(kind, Rearranged(r)) == r
  {
    var r := Interleaved(kind, args);
    InterleavedShape(kind, args);
    if Dangling(kind, r) {
      ReadsBackDangling(kind, r);
    } else {
      ReadsBackComplete(kind, r);
    }
  }

  lemma TerminatorKind(m: TakesValue)
    ensures KindsOf(m)("--") == Terminator
  {
  }

  /** The stopping parser reads from the result exactly what the user meant, options, values and positionals. */
  lemma ParserReadsTheMeaningIff(m: TakesValue, args: seq<string>)
    ensures var r := Interleaved(KindsOf(m), args);
      StopAtNonFlag(KindsOf(m), Rearranged(r)) == r <==> !SwallowsTerminator(KindsOf(m), r)
  {
    var kind := KindsOf(m);
    var r := Interleaved(kind, args);
    TerminatorKind(m);
    if SwallowsTerminator(kind, r) {
      ReadsSwallowed(kind, args);
      assert Last(Swallowed(r).opts).value == Some("--");
    } else {
      ReadsBack(kind, args);
    }
  }

  /** The command words are found again, since what follows them starts with a dash. */
  lemma {:induction false} WalkAgain(commands: seq<Command>, flags: seq<Flag>, rest: seq<string>, tail: seq<string>)
    requires tail == [] || HasDash(tail[0])
    ensures var n := Walk(commands, flags, rest).0;
      Walk(commands, flags, rest[..n] + tail) == Walk(commands, flags, rest)
    decreases |rest|
  {
    var n := Walk(commands, flags, rest).0;
    if n == 0 {
      assert rest[..n] + tail == tail;
    } else {
      var c := FindCommand(commands, rest[0]);
      WalkAgain(c.value.subcommands, flags + c.value.flags, rest[1..], tail);
      assert (rest[..n] + tail)[1..] == rest[1..][..n - 1] + tail;
    }
  }

  lemma RearrangedStartsWithDash(m: TakesValue, args: seq<string>)
    ensures var t := Rearranged(Interleaved(KindsOf(m), args)); t == [] || HasDash(t[0])
  {
    var kind := KindsOf(m);
    var r := Interleaved(kind, args);
    InterleavedShape(kind, args);
    if r.opts != [] {
      if Dangling(kind, r) && |r.opts| > 1 {
        assert AllButLast(r.opts)[0] == r.opts[0];
      }
      assert kind(r.opts[0].token) != Positional;
      assert Tokens(r.opts)[0] == r.opts[0].token;
    }
  }

  lemma SwallowedIsLonger(r: Reading)
    requires r.opts != [] && Last(r.opts).value.None?
    ensures |Rearranged(Swallowed(r))| == |Rearranged(r)| + 1
  {
    TokensSplit(r.opts);
    TokensSplit(Swallowed(r).opts);
    assert AllButLast(Swallowed(r).opts) == AllButLast(r.opts);
  }

  /** With anything that starts with a dash behind them, the same command words are found. */
  lemma SameWords(app: App, args: seq<string>, n: nat, tail: seq<string>)
    requires args != [] && n == CommandWords(app, args) && (tail == [] || HasDash(tail[0]))
    ensures var out := args[..1 + n] + tail;
      CommandWords(app, out) == n && Scope(app, out) == Scope(app, args) && out[..1 + n] == args[..1 + n] && out[1 + n..] == tail
  {
    var rest, out := args[1..], args[..1 + n] + tail;
    WalkAgain(app.commands, app.flags, rest, tail);
    assert out[1..] == rest[..n] + tail;
  }

  lemma SecondPass(app: App, args: seq<string>)
    requires |args| >= 2
    ensures Reordered(app, Reordered(app, args))
         == args[..1 + CommandWords(app, args)] + Rearranged(Interleaved(Scope(app, args), Rearranged(Meant(app, args))))
  {
    var n, tail, out := CommandWords(app, args), Rearranged(Meant(app, args)), Reordered(app, args);
    RearrangedStartsWithDash(TakesValueOf(map[], Walk(app.commands, app.flags, args[1..]).1), args[1 + n..]);
    SameWords(app, args, n, tail);
    if |out| < 2 {
      assert tail == [];
      assert Rearranged(Interleaved(Scope(app, args), [])) == [];
    }
  }

  /** A second pass changes nothing, again exactly when no terminator is swallowed. */
  lemma IdempotentIff(app: App, args: seq<string>)
    requires |args| >= 2
    ensures Reordered(app, Reordered(app, args)) == Reordered(app, args)
       <==> !SwallowsTerminator(Scope(app, args), Meant(app, args))
  {
    var n, kind, r := CommandWords(app, args), Scope(app, args), Meant(app, args);
    SecondPass(app, args);
    TerminatorKind(TakesValueOf(map[], Walk(app.commands, app.flags, args[1..]).1));
    if SwallowsTerminator(kind, r) {
      ReadsSwallowed(kind, args[1 + n..]);
      SwallowedIsLonger(r);
    } else {
      ReadsBack(kind, args[1 + n..]);
    }
  }

  const MAX_DOWNLOADS := Flag(["max-downloads"], false)
  const SEND := App([MAX_DOWNLOADS], [])
  const TYPED := ["send", "a.txt", "--max-downloads"]

  lemma TypedFlags()
    ensures TakesValueOf(map[], [MAX_DOWNLOADS]) == map["max-downloads" := true]
  {
    assert [MAX_DOWNLOADS][1..] == [] && ["max-downloads"][1..] == [];
  }

  lemma TypedKinds(m: TakesValue)
    requires m == map["max-downloads" := true]
    ensures KindOf(m, "a.txt") == Positional && KindOf(m, "--max-downloads") == Taking
  {
    TypedName();
    assert '=' !in "max-downloads" && "--max-downloads" != "--" && "--max-downloads" != "-";
  }

  lemma TypedName()
    ensures TrimDashes("--max-downloads") == "max-downloads"
  {
    var arg, name := "--max-downloads", "max-downloads";
    assert arg[1..] == "-" + name && arg[1..][1..] == name;
    assert TrimDashes(name) == name;
    assert TrimDashes(arg[1..]) == TrimDashes(arg[1..][1..]);
  }

  lemma TypedScope()
    ensures CommandWords(SEND, TYPED) == 0 && TYPED[1..] == ["a.txt", "--max-downloads"]
    ensures var kind := Scope(SEND, TYPED);
      kind("a.txt") == Positional && kind("--max-downloads") == Taking
  {
    TypedFlags();
    TypedKinds(TakesValueOf(map[], [MAX_DOWNLOADS]));
    assert Walk(SEND.commands, SEND.flags, TYPED[1..]) == (0, SEND.flags);
  }

  lemma ReadsTyped(kind: Kinds)
    requires kind("a.txt") == Positional && kind("--max-downloads") == Taking
    ensures Interleaved(kind, ["a.txt", "--max-downloads"]) == Reading([Opt("--max-downloads", None)], ["a.txt"])
  {
    assert ["a.txt", "--max-downloads"][1..] == ["--max-downloads"];
    assert Interleaved(kind, ["--max-downloads"]) == Reading([Opt("--max-downloads", None)], []);
  }

  lemma RearrangesTyped()
    ensures Rearranged(Reading([Opt("--max-downloads", None)], ["a.txt"])) == ["--max-downloads", "--", "a.txt"]
  {
    assert [Opt("--max-downloads", None)][1..] == [];
  }

  /** It happens: a value option typed last, without its value, after a file name. */
  lemma TrailingOptionSwallows()
    ensures Meant(SEND, TYPED) == Reading([Opt("--max-downloads", None)], ["a.txt"])
    ensures Reordered(SEND, TYPED) == ["send", "--max-downloads", "--", "a.txt"]
    ensures StopAtNonFlag(Scope(SEND, TYPED), Reordered(SEND, TYPED)[1..])
         == Reading([Opt("--max-downloads", Some("--"))], ["a.txt"])
    ensures Reordered(SEND, Reordered(SEND, TYPED)) != Reordered(SEND, TYPED)
  {
    var kind, rest := Scope(SEND, TYPED), ["a.txt", "--max-downloads"];
    TypedScope();
    ReadsTyped(kind);
    RearrangesTyped();
    assert TYPED[1 + CommandWords(SEND, TYPED)..] == rest && TYPED[..1] == ["send"];
    assert Reordered(SEND, TYPED)[1..] == Rearranged(Meant(SEND, TYPED));
    ReadsSwallowed(kind, rest);
    IdempotentIff(SEND, TYPED);
  }

  /** `send - --password x` uploads from standard input with that password: the dash is put behind the option. */
  lemma StdinIsPositional(kind: Kinds, m: TakesValue, option: string, value: string)
    requires kind == KindsOf(m) && kind(option) == Taking
    ensures Rearranged(Interleaved(kind, ["-", option, value])) == [option, value, "--", "-"]
    ensures StopAtNonFlag(kind, [option, value, "--", "-"]) == Reading([Opt(option, Some(value))], ["-"])
  {
    var args := ["-", option, value];
    KindsByLooks(m, "-");
    assert args[1..] == [option, value] && [option, value][2..] == [];
    assert Interleaved(kind, [option, value]) == Reading([Opt(option, Some(value))], []);
    var r := Reading([Opt(option, Some(value))], ["-"]);
    assert Interleaved(kind, args) == r;
    assert r.opts[1..] == [];
    KindsByLooks(m, "--");
    var out := [option, value, "--", "-"];
    assert out[2..] == ["--", "-"] && ["--", "-"][1..] == ["-"];
    assert StopAtNonFlag(kind, ["--", "-"]) == Reading([], ["-"]);
    assert StopAtNonFlag(kind, out) == WithOpt(Opt(option, Some(value)), StopAtNonFlag(kind, out[2..]));
    assert Tokens(r.opts) == [option, value] + Tokens(r.opts[1..]);
    assert Rearranged(r) == out;
  }

  function Kept(r: Reading): multiset<string> {
    multiset(Tokens(r.opts)) + multiset(r.positional)
  }

  lemma SplitMultiset(s: seq<string>, n: nat)
    requires n <= |s|
    ensures multiset(s) == multiset(s[..n]) + multiset(s[n..])
  {
    assert s == s[..n] + s[n..];
  }

  lemma MultisetConcat(a: seq<string>, b: seq<string>)
    ensures multiset(a + b) == multiset(a) + multiset(b)
  {
  }

  lemma KeptStep(first: seq<string>, r: Reading, later: Reading)
    requires (Tokens(r.opts) == Tokens(later.opts) && r.positional == first + later.positional)
          || (Tokens(r.opts) == first + Tokens(later.opts) && r.positional == later.positional)
    ensures Kept(r) == multiset(first) + Kept(later)
  {
    MultisetConcat(first, later.positional);
    MultisetConcat(first, Tokens(later.opts));
  }

  /** What the first argument uses up is kept. */
  lemma KeptFirst(kind: Kinds, args: seq<string>)
    requires args != [] && kind(args[0]) != Terminator
    ensures var n := FirstWidth(kind, args);
      Kept(Interleaved(kind, args)) == multiset(args[..n]) + Kept(Interleaved(kind, args[n..]))
  {
    var n := FirstWidth(kind, args);
    ReadsFirst(kind, args);
    assert n == 1 ==> args[..n] == [args[0]];
    KeptStep(args[..n], Interleaved(kind, args), Interleaved(kind, args[n..]));
  }

  /** No argument is lost, added or altered: only a "--" may go. */
  lemma {:induction false} ArgumentsAreConserved(m: TakesValue, args: seq<string>)
    ensures var kept := Kept(Interleaved(KindsOf(m), args));
      kept == multiset(args) || kept + multiset{"--"} == multiset(args)
    decreases |args|
  {
    var kind := KindsOf(m);
    if args != [] && kind(args[0]) == Terminator {
      SplitMultiset(args, 1);
      assert args[..1] == ["--"];
    } else if args != [] {
      KeptFirst(kind, args);
      SplitMultiset(args, FirstWidth(kind, args));
      ArgumentsAreConserved(m, args[FirstWidth(kind, args)..]);
    }
  }
}
