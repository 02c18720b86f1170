/** The command-line parser: options, the argument loop, and the tokenizer for whole command strings. */
module CmdLine {
  import opened Options

  /** An option's short name is '\0' when it has none; a value option reads its value with a reader that may refuse. */
  datatype Opt<V> =
    | Flag(short: char, has: bool)
    | Valued(short: char, need: bool, has: bool, actual: V, reader: string -> Option<V>)

  /** What parsing changes. */
  datatype State<V> = State(options: map<string, Opt<V>>, errors: seq<string>, others: seq<string>)

  type Lookup = map<char, string>

  // ---------------------------------------------------------------- options

  /** The names of the options that take a value. */
  ghost function ValueNames<V>(options: map<string, Opt<V>>): set<string> {
    set n | n in options && options[n].Valued?
  }

  ghost predicate SameNames<V>(s: State<V>, t: State<V>) {
    s.options.Keys == t.options.Keys && ValueNames(s.options) == ValueNames(t.options)
  }

  function AddError<V>(s: State<V>, error: string): State<V> {
    s.(errors := s.errors + [error])
  }

  /** set_option without a value. */
  function SetOption<V>(s: State<V>, name: string): (t: State<V>)
    ensures SameNames(s, t) && t.others == s.others
  {
    if name !in s.options then AddError(s, "undefined option: --" + name)
    else match s.options[name]
         case Flag(short, _) => s.(options := s.options[name := Flag(short, true)])
         case Valued(_, _, _, _, _) => AddError(s, "option needs value: --" + name)
  }

  /** set_option with a value. */
  function SetOptionValue<V>(s: State<V>, name: string, value: string): (t: State<V>)
    ensures SameNames(s, t) && t.others == s.others
  {
    if name !in s.options then AddError(s, "undefined option: --" + name)
    else
      var bad := AddError(s, "option value is invalid: --" + name + "=" + value);
      match s.options[name]
      case Flag(_, _) => bad
      case Valued(short, need, _, _, reader) =>
        match reader(value)
        case None => bad
        case Some(v) => s.(options := s.options[name := Valued(short, need, true, v, reader)])
  }

  // ---------------------------------------------------------------- the argument loop as a function

  function IndexOf(s: string, c: char): (i: nat)
    ensures i <= |s| && c !in s[..i] && (i < |s| ==> s[i] == c)
  {
    if s == [] || s[0] == c then 0 else 1 + IndexOf(s[1..], c)
  }

  lemma IndexOfIs(s: string, c: char, i: nat)
    requires i < |s| && s[i] == c && c !in s[..i]
    ensures IndexOf(s, c) == i
  {
    var r := IndexOf(s, c);
    assert forall k :: 0 <= k < r ==> s[k] == s[..r][k] != c;
    assert forall k :: 0 <= k < i ==> s[k] == s[..i][k] != c;
  }

  predicate IsLong(arg: string) {
    |arg| >= 2 && arg[0] == '-' && arg[1] == '-'
  }

  predicate IsShort(arg: string) {
    !IsLong(arg) && |arg| >= 1 && arg[0] == '-'
  }

  /** A short option that is not the last of its cluster. */
  function SetShort<V>(lookup: Lookup, s: State<V>, c: char): (t: State<V>)
    ensures SameNames(s, t) && t.others == s.others
  {
    if c !in lookup then AddError(s, "undefined short option: -" + [c])
    else if lookup[c] == "" then AddError(s, "ambiguous short option: -" + [c])
    else SetOption(s, lookup[c])
  }

  function SetShorts<V>(lookup: Lookup, s: State<V>, cs: string): (t: State<V>)
    ensures SameNames(s, t) && t.others == s.others
    decreases |cs|
  {
    if cs == [] then s else SetShorts(lookup, SetShort(lookup, s, cs[0]), cs[1..])
  }

  /** The argument takes the next one, if there is one, as its value. */
  predicate Consumes(valueNames: set<string>, lookup: Lookup, arg: string) {
    if IsLong(arg) then '=' !in arg[2..] && arg[2..] in valueNames
    else IsShort(arg) && |arg| > 1 && arg[|arg| - 1] in lookup
         && lookup[arg[|arg| - 1]] != "" && lookup[arg[|arg| - 1]] in valueNames
  }

  /** One argument, and whether the next one went with it. */
  function ParseOne<V>(lookup: Lookup, s: State<V>, arg: string, next: Option<string>): (r: (State<V>, bool))
    ensures SameNames(s, r.0)
    ensures r.1 <==> next.Some? && Consumes(ValueNames(s.options), lookup, arg)
    ensures IsLong(arg) || IsShort(arg) ==> r.0.others == s.others
  {
    if IsLong(arg) then
      var body := arg[2..];
      var p := IndexOf(body, '=');
      if p < |body| then (SetOptionValue(s, body[..p], body[p + 1..]), false)
      else if body !in s.options then (AddError(s, "undefined option: --" + body), false)
      else if s.options[body].Valued? then
        match next
        case None => (AddError(s, "option needs value: --" + body), false)
        case Some(value) => (SetOptionValue(s, body, value), true)
      else (SetOption(s, body), false)
    else if IsShort(arg) then
      if |arg| == 1 then (s, false)
      else
        var last := arg[|arg| - 1];
        var t := SetShorts(lookup, s, arg[1..|arg| - 1]);
        if next.Some? && last in lookup && lookup[last] != "" && lookup[last] in t.options
          && t.options[lookup[last]].Valued?
        then (SetOptionValue(t, lookup[last], next.value), true)
        else (SetShort(lookup, t, last), false)
    else (s.(others := s.others + [arg]), false)
  }

  /** The loop over the arguments behind the program name. */
  function ParseArgs<V>(lookup: Lookup, s: State<V>, args: seq<string>): (t: State<V>)
    ensures SameNames(s, t)
    decreases |args|
  {
    if args == [] then s
    else
      var (t, used) := ParseOne(lookup, s, args[0], if |args| > 1 then Some(args[1]) else None);
      ParseArgs(lookup, t, if used then args[2..] else args[1..])
  }

  /** Short names to option names, in iteration order; or the first short name that two options share. */
  datatype LookupResult = Found(lookup: Lookup) | Ambiguous(c: char)

  /** Every short name leads to an option that has it; no short name is marked as ambiguous. */
  ghost predicate NamesOptions<V>(lookup: Lookup, options: map<string, Opt<V>>) {
    forall c :: c in lookup ==> lookup[c] != "" && lookup[c] in options && options[lookup[c]].short == c
  }

  function BuildLookup<V>(names: seq<string>, options: map<string, Opt<V>>, lookup: Lookup): (r: LookupResult)
    requires forall n :: n in names ==> n in options
    ensures r.Found? && NamesOptions(lookup, options) ==> NamesOptions(r.lookup, options)
  {
    if names == [] then Found(lookup)
    else
      var c := options[names[0]].short;
      if names[0] == "" || c == '\0' then BuildLookup(names[1..], options, lookup)
      else if c in lookup then Ambiguous(c)
      else BuildLookup(names[1..], options, lookup[c := names[0]])
  }

  predicate IsValid<V>(o: Opt<V>) {
    o.Flag? || !o.need || o.has
  }

  function MissingErrors<V>(names: seq<string>, options: map<string, Opt<V>>): seq<string>
    requires forall n :: n in names ==> n in options
  {
    if names == [] then []
    else
      (if IsValid(options[names[0]]) then [] else ["need option: --" + names[0]]) + MissingErrors(names[1..], options)
  }

  /** parse(argc, argv) on the options in their iteration order; success is an empty error list. */
  function Parse<V>(names: seq<string>, options: map<string, Opt<V>>, argv: seq<string>): State<V>
    requires forall n :: n in names ==> n in options
  {
    if |argv| < 1 then State(options, ["argument number must be longer than 0"], [])
    else match BuildLookup(names, options, map[])
         case Ambiguous(c) => State(options, ["short option '" + [c] + "' is ambiguous"], [])
         case Found(lookup) =>
           var t := ParseArgs(lookup, State(options, [], []), argv[1..]);
           t.(errors := t.errors + MissingErrors(names, t.options))
  }

  // ---------------------------------------------------------------- where an argument is read as an argument

  /** After the arguments a the loop reads the next one as an argument of its own, not as a value. */
  ghost predicate Aligned(valueNames: set<string>, lookup: Lookup, a: seq<string>)
    decreases |a|
  {
    || a == []
    || (if Consumes(valueNames, lookup, a[0]) then |a| >= 2 && Aligned(valueNames, lookup, a[2..])
        else Aligned(valueNames, lookup, a[1..]))
  }

  /** At an aligned point the loop can be cut in two. */
  lemma {:induction false} ParseArgsSplit<V>(lookup: Lookup, s: State<V>, a: seq<string>, rest: seq<string>)
    requires Aligned(ValueNames(s.options), lookup, a)
    ensures ParseArgs(lookup, s, a + rest) == ParseArgs(lookup, ParseArgs(lookup, s, a), rest)
    decreases |a|
  {
    if a == [] {
      assert a + rest == rest;
    } else {
      var next := if |a + rest| > 1 then Some((a + rest)[1]) else None;
      var (t, used) := ParseOne(lookup, s, a[0], next);
      if used {
        assert (a + rest)[2..] == a[2..] + rest;
        ParseArgsSplit(lookup, t, a[2..], rest);
      } else {
        assert (a + rest)[1..] == a[1..] + rest;
        NextUnused(lookup, s, a[0], next, if |a| > 1 then Some(a[1]) else None);
        ParseArgsSplit(lookup, t, a[1..], rest);
      }
    }
  }

  /** An argument that does not take the next one does not look at it. */
  lemma NextUnused<V>(lookup: Lookup, s: State<V>, arg: string, next: Option<string>, other: Option<string>)
    requires !Consumes(ValueNames(s.options), lookup, arg)
    ensures ParseOne(lookup, s, arg, next) == ParseOne(lookup, s, arg, other)
  {
  }

  /** An unaligned sequence ends in an argument that waits for its value. */
  lemma {:induction false} UnalignedEnd(valueNames: set<string>, lookup: Lookup, a: seq<string>)
    requires !Aligned(valueNames, lookup, a)
    ensures a != [] && Aligned(valueNames, lookup, a[..|a| - 1]) && Consumes(valueNames, lookup, a[|a| - 1])
    decreases |a|
  {
    if Consumes(valueNames, lookup, a[0]) {
      if |a| >= 2 {
        UnalignedEnd(valueNames, lookup, a[2..]);
        assert a[2..][..|a[2..]| - 1] == a[..|a| - 1][2..];
      }
    } else {
      UnalignedEnd(valueNames, lookup, a[1..]);
      assert a[1..][..|a[1..]| - 1] == a[..|a| - 1][1..];
    }
  }

  // ---------------------------------------------------------------- spellings of a long option

  function Joined(n: string, v: string): string {
    "--" + n + "=" + v
  }

  function Separate(n: string): string {
    "--" + n
  }

  lemma JoinedIsSeparate<V>(lookup: Lookup, s: State<V>, n: string, v: string, b: seq<string>)
    requires n in s.options && s.options[n].Valued? && '=' !in n
    ensures ParseArgs(lookup, s, [Joined(n, v)] + b) == ParseArgs(lookup, s, [Separate(n), v] + b)
  {
    var t := SetOptionValue(s, n, v);
    var body := Joined(n, v)[2..];
    assert body == n + "=" + v;
    assert body[|n|] == '=' && body[..|n|] == n && body[|n| + 1..] == v;
    IndexOfIs(body, '=', |n|);
    assert ([Joined(n, v)] + b)[1..] == b;
    assert Separate(n)[2..] == n && ([Separate(n), v] + b)[2..] == b && ([Separate(n), v] + b)[1] == v;
    assert IndexOf(n, '=') == |n|;
  }

  /** "--n=v" and "--n" "v" mean the same for all v and all following arguments if and only if
      the arguments before them do not end in one that takes the next argument as its value. */
  lemma LongSpellingsAgreeExactly<V>(lookup: Lookup, s: State<V>, a: seq<string>, n: string)
    requires n in s.options && s.options[n].Valued? && '=' !in n
    ensures (forall v, b ::
              ParseArgs(lookup, s, a + [Joined(n, v)] + b) == ParseArgs(lookup, s, a + [Separate(n), v] + b))
            <==> Aligned(ValueNames(s.options), lookup, a)
  {
    if Aligned(ValueNames(s.options), lookup, a) {
      forall v, b
        ensures ParseArgs(lookup, s, a + [Joined(n, v)] + b) == ParseArgs(lookup, s, a + [Separate(n), v] + b)
      {
        LongSpellingsAgree(lookup, s, a, n, v, b);
      }
    } else {
      SpellingsDiffer(lookup, s, a, n);
    }
  }

  lemma LongSpellingsAgree<V>(lookup: Lookup, s: State<V>, a: seq<string>, n: string, v: string, b: seq<string>)
    requires n in s.options && s.options[n].Valued? && '=' !in n
    requires Aligned(ValueNames(s.options), lookup, a)
    ensures ParseArgs(lookup, s, a + [Joined(n, v)] + b) == ParseArgs(lookup, s, a + [Separate(n), v] + b)
  {
    assert a + [Joined(n, v)] + b == a + ([Joined(n, v)] + b);
    assert a + [Separate(n), v] + b == a + ([Separate(n), v] + b);
    ParseArgsSplit(lookup, s, a, [Joined(n, v)] + b);
    ParseArgsSplit(lookup, s, a, [Separate(n), v] + b);
    var t := ParseArgs(lookup, s, a);
    assert n in ValueNames(s.options);
    assert n in ValueNames(t.options);
    JoinedIsSeparate(lookup, t, n, v, b);
  }

  /** Otherwise the pending option swallows "--n=x" whole, but of "--n" "x" it leaves the x as a plain argument. */
  lemma SpellingsDiffer<V>(lookup: Lookup, s: State<V>, a: seq<string>, n: string)
    requires !Aligned(ValueNames(s.options), lookup, a)
    ensures ParseArgs(lookup, s, a + [Joined(n, "x")] + []) != ParseArgs(lookup, s, a + [Separate(n), "x"] + [])
  {
    UnalignedEnd(ValueNames(s.options), lookup, a);
    var left, right := a + [Joined(n, "x")] + [], a + [Separate(n), "x"] + [];
    assert left == a + [Joined(n, "x")] && right == a + [Separate(n)] + ["x"];
    PendingSwallows(lookup, s, a, Joined(n, "x"), [], left);
    PendingSwallows(lookup, s, a, Separate(n), ["x"], right);
  }

  lemma PendingSwallows<V>(lookup: Lookup, s: State<V>, a: seq<string>, value: string, rest: seq<string>,
                           args: seq<string>)
    requires !Aligned(ValueNames(s.options), lookup, a) && (rest == [] || rest == ["x"])
    requires args == a + [value] + rest
    ensures a != [] && ParseArgs(lookup, s, args).others == ParseArgs(lookup, s, a[..|a| - 1]).others + rest
  {
    UnalignedEnd(ValueNames(s.options), lookup, a);
    var front, m := a[..|a| - 1], a[|a| - 1];
    assert args == front + ([m, value] + rest);
    ParseArgsSplit(lookup, s, front, [m, value] + rest);
    SwallowsOne(lookup, ParseArgs(lookup, s, front), m, value, rest);
  }

  lemma SwallowsOne<V>(lookup: Lookup, t: State<V>, m: string, value: string, rest: seq<string>)
    requires Consumes(ValueNames(t.options), lookup, m) && (rest == [] || rest == ["x"])
    ensures ParseArgs(lookup, t, [m, value] + rest).others == t.others + rest
  {
    var args := [m, value] + rest;
    var (u, used) := ParseOne(lookup, t, m, Some(value));
    assert args[1] == value && args[2..] == rest;
    assert used && u.others == t.others;
    if rest == ["x"] {
      assert rest[1..] == [];
      assert ParseArgs(lookup, u, rest) == ParseArgs(lookup, u.(others := u.others + ["x"]), []);
    }
  }

  // ---------------------------------------------------------------- spellings of short options

  function Spread(cs: string): seq<string> {
    if cs == [] then [] else ["-" + [cs[0]]] + Spread(cs[1..])
  }

  /** Only the last letter of the cluster may name an option that takes a value. */
  ghost predicate OnlyLastTakesValue(valueNames: set<string>, lookup: Lookup, cs: string) {
    forall i :: 0 <= i < |cs| - 1 && cs[i] in lookup ==> lookup[cs[i]] !in valueNames
  }

  lemma {:induction false} ClusterIsSpread<V>(lookup: Lookup, s: State<V>, cs: string, b: seq<string>)
    requires cs != [] && '-' !in cs
    requires OnlyLastTakesValue(ValueNames(s.options), lookup, cs)
    ensures ParseArgs(lookup, s, ["-" + cs] + b) == ParseArgs(lookup, s, Spread(cs) + b)
    decreases |cs|
  {
    if |cs| == 1 {
      LoneSpread(cs);
    } else {
      ClusterStep(lookup, s, cs, b);
      ClusterIsSpread(lookup, SetShort(lookup, s, cs[0]), cs[1..], b);
      SpreadStep(lookup, s, cs, b);
    }
  }

  lemma LoneSpread(cs: string)
    requires |cs| == 1
    ensures Spread(cs) == ["-" + cs]
  {
    assert cs == [cs[0]] && cs[1..] == [];
  }

  /** The first of the separate options is set, then the others are read. */
  lemma SpreadStep<V>(lookup: Lookup, s: State<V>, cs: string, b: seq<string>)
    requires cs != [] && cs[0] != '-' && (cs[0] in lookup ==> lookup[cs[0]] !in ValueNames(s.options))
    ensures ParseArgs(lookup, s, Spread(cs) + b) == ParseArgs(lookup, SetShort(lookup, s, cs[0]), Spread(cs[1..]) + b)
  {
    SingleStep(lookup, s, cs[0], Spread(cs[1..]) + b);
    assert Spread(cs) + b == ["-" + [cs[0]]] + (Spread(cs[1..]) + b);
  }

  /** The first short option of a longer cluster is set, then the rest of the cluster is read. */
  lemma ClusterStep<V>(lookup: Lookup, s: State<V>, cs: string, b: seq<string>)
    requires |cs| > 1 && '-' !in cs
    ensures ParseArgs(lookup, s, ["-" + cs] + b) == ParseArgs(lookup, SetShort(lookup, s, cs[0]), ["-" + cs[1..]] + b)
  {
    var arg, shorter := "-" + cs, "-" + cs[1..];
    var next := if b != [] then Some(b[0]) else None;
    ClusterHead(lookup, s, cs, next);
    assert ([arg] + b)[1..] == b && ([shorter] + b)[1..] == b;
    if b != [] {
      assert ([arg] + b)[2..] == b[1..] && ([shorter] + b)[2..] == b[1..];
    }
  }

  lemma ClusterHead<V>(lookup: Lookup, s: State<V>, cs: string, next: Option<string>)
    requires |cs| > 1 && '-' !in cs
    ensures ParseOne(lookup, s, "-" + cs, next) == ParseOne(lookup, SetShort(lookup, s, cs[0]), "-" + cs[1..], next)
  {
    var arg, shorter := "-" + cs, "-" + cs[1..];
    assert cs[1] in cs && IsShort(arg) && IsShort(shorter);
    var front := arg[1..|arg| - 1];
    assert front == cs[..|cs| - 1] && front[1..] == shorter[1..|shorter| - 1];
    assert SetShorts(lookup, s, front) == SetShorts(lookup, SetShort(lookup, s, cs[0]), front[1..]);
    assert arg[|arg| - 1] == shorter[|shorter| - 1];
  }

  /** A single short option that takes no value. */
  lemma SingleStep<V>(lookup: Lookup, s: State<V>, c: char, rest: seq<string>)
    requires c != '-' && (c in lookup ==> lookup[c] !in ValueNames(s.options))
    ensures ParseArgs(lookup, s, ["-" + [c]] + rest) == ParseArgs(lookup, SetShort(lookup, s, c), rest)
  {
    var arg := "-" + [c];
    assert arg[1..|arg| - 1] == [] && arg[|arg| - 1] == c;
    assert ([arg] + rest)[1..] == rest;
  }

  /** A cluster "-abc" means "-a" "-b" "-c" wherever it is read as an argument, provided that only its last
      option may take a value and that it contains no '-'. */
  lemma ClustersSpread<V>(lookup: Lookup, s: State<V>, a: seq<string>, cs: string, b: seq<string>)
    requires cs != [] && '-' !in cs
    requires OnlyLastTakesValue(ValueNames(s.options), lookup, cs)
    requires Aligned(ValueNames(s.options), lookup, a)
    ensures ParseArgs(lookup, s, a + ["-" + cs] + b) == ParseArgs(lookup, s, a + Spread(cs) + b)
  {
    assert a + ["-" + cs] + b == a + (["-" + cs] + b);
    assert a + Spread(cs) + b == a + (Spread(cs) + b);
    ParseArgsSplit(lookup, s, a, ["-" + cs] + b);
    ParseArgsSplit(lookup, s, a, Spread(cs) + b);
    ClusterIsSpread(lookup, ParseArgs(lookup, s, a), cs, b);
  }

  // ---------------------------------------------------------------- when clusters cannot be spread

  /** The short option adds an error when it is given without a value. */
  predicate Faulty<V>(lookup: Lookup, s: State<V>, c: char) {
    c !in lookup || lookup[c] == "" || lookup[c] !in s.options || s.options[lookup[c]].Valued?
  }

  function Faults<V>(lookup: Lookup, s: State<V>, cs: string): nat {
    if cs == [] then 0 else (if Faulty(lookup, s, cs[0]) then 1 else 0) + Faults(lookup, s, cs[1..])
  }

  lemma {:induction false} FaultsDependOnNames<V>(lookup: Lookup, s: State<V>, t: State<V>, cs: string)
    requires SameNames(s, t)
    ensures Faults(lookup, s, cs) == Faults(lookup, t, cs)
    decreases |cs|
  {
    if cs != [] {
      var c := cs[0];
      assert c in lookup ==> (lookup[c] in ValueNames(s.options) <==> lookup[c] in ValueNames(t.options));
      FaultsDependOnNames(lookup, s, t, cs[1..]);
    }
  }

  lemma {:induction false} ShortsOnlyAddErrors<V>(lookup: Lookup, s: State<V>, cs: string)
    ensures s.errors <= SetShorts(lookup, s, cs).errors
    decreases |cs|
  {
    if cs != [] { ShortsOnlyAddErrors(lookup, SetShort(lookup, s, cs[0]), cs[1..]); }
  }

  lemma {:induction false} ParsingOnlyAddsErrors<V>(lookup: Lookup, s: State<V>, args: seq<string>)
    ensures s.errors <= ParseArgs(lookup, s, args).errors
    decreases |args|
  {
    if args != [] {
      var (t, used) := ParseOne(lookup, s, args[0], if |args| > 1 then Some(args[1]) else None);
      if IsShort(args[0]) && |args[0]| > 1 { ShortsOnlyAddErrors(lookup, s, args[0][1..|args[0]| - 1]); }
      assert s.errors <= t.errors;
      ParsingOnlyAddsErrors(lookup, t, if used then args[2..] else args[1..]);
    }
  }

  /** At the end of a command line, a cluster adds one error per faulty letter. */
  lemma {:induction false} ClusterFaults<V>(lookup: Lookup, s: State<V>, cs: string)
    requires cs != [] && '-' !in cs
    ensures |ParseArgs(lookup, s, ["-" + cs] + []).errors| == |s.errors| + Faults(lookup, s, cs)
    decreases |cs|
  {
    var t := SetShort(lookup, s, cs[0]);
    FaultsDependOnNames(lookup, s, t, cs[1..]);
    if |cs| == 1 {
      LoneShort(lookup, s, cs[0]);
      assert cs == [cs[0]] && ["-" + cs] + [] == ["-" + [cs[0]]];
    } else {
      ClusterStep(lookup, s, cs, []);
      ClusterFaults(lookup, t, cs[1..]);
    }
  }

  lemma LoneShort<V>(lookup: Lookup, s: State<V>, c: char)
    requires c != '-'
    ensures ParseArgs(lookup, s, ["-" + [c]]) == SetShort(lookup, s, c)
  {
    var arg := "-" + [c];
    assert arg[1..|arg| - 1] == [] && arg[|arg| - 1] == c;
    assert ParseOne(lookup, s, arg, None) == (SetShort(lookup, s, c), false);
    var none: seq<string> := [arg][1..];
    assert none == [];
  }

  lemma LoneTakesValue<V>(lookup: Lookup, s: State<V>, c: char, value: string)
    requires c != '-' && c in lookup && lookup[c] != "" && lookup[c] in ValueNames(s.options)
    ensures ParseOne(lookup, s, "-" + [c], Some(value)) == (SetOptionValue(s, lookup[c], value), true)
  {
    var arg := "-" + [c];
    assert arg[1..|arg| - 1] == [] && arg[|arg| - 1] == c;
    assert SetShorts(lookup, s, []) == s;
  }

  /** A short option that takes a value takes the next argument, whatever that is. */
  lemma ShortSwallows<V>(lookup: Lookup, s: State<V>, c: char, value: string, rest: seq<string>)
    requires c != '-' && c in lookup && lookup[c] != "" && lookup[c] in ValueNames(s.options)
    ensures ParseArgs(lookup, s, ["-" + [c], value] + rest)
         == ParseArgs(lookup, SetOptionValue(s, lookup[c], value), rest)
  {
    var n, args := lookup[c], ["-" + [c], value] + rest;
    LoneTakesValue(lookup, s, c, value);
    assert args[0] == "-" + [c] && args[1] == value && args[2..] == rest;
  }

  lemma SpreadSwallows<V>(lookup: Lookup, s: State<V>, cs: string)
    requires |cs| > 1 && '-' !in cs
    requires cs[0] in lookup && lookup[cs[0]] != "" && lookup[cs[0]] in ValueNames(s.options)
    ensures ParseArgs(lookup, s, Spread(cs))
         == ParseArgs(lookup, SetOptionValue(s, lookup[cs[0]], "-" + [cs[1]]), Spread(cs[2..]))
  {
    var value := "-" + [cs[1]];
    assert cs[1..][1..] == cs[2..];
    assert Spread(cs) == ["-" + [cs[0]], value] + Spread(cs[2..]);
    ShortSwallows(lookup, s, cs[0], value, Spread(cs[2..]));
  }

  /** Separated, the letters add at most that many. */
  lemma {:induction false} SpreadFaults<V>(lookup: Lookup, s: State<V>, cs: string)
    requires '-' !in cs && forall c :: c in lookup ==> lookup[c] != ""
    ensures |ParseArgs(lookup, s, Spread(cs)).errors| <= |s.errors| + Faults(lookup, s, cs)
    decreases |cs|
  {
    if cs == [] {
    } else if cs[0] in lookup && lookup[cs[0]] in ValueNames(s.options) && |cs| > 1 {
      var t := SetOptionValue(s, lookup[cs[0]], "-" + [cs[1]]);
      SpreadSwallows(lookup, s, cs);
      SpreadFaults(lookup, t, cs[2..]);
      FaultsDependOnNames(lookup, s, t, cs[2..]);
      assert cs[1..][1..] == cs[2..];
    } else {
      var t := SetShort(lookup, s, cs[0]);
      if |cs| == 1 {
        LoneShort(lookup, s, cs[0]);
        assert Spread(cs) == ["-" + [cs[0]]];
      } else {
        SingleStep(lookup, s, cs[0], Spread(cs[1..]));
        SpreadFaults(lookup, t, cs[1..]);
        FaultsDependOnNames(lookup, s, t, cs[1..]);
      }
    }
  }

  /** A value option at the front reports that it needs a value; separated, it takes the next letter as one. */
  lemma FrontOption<V>(lookup: Lookup, s: State<V>, cs: string)
    requires |cs| > 1 && '-' !in cs
    requires cs[0] in lookup && lookup[cs[0]] != "" && lookup[cs[0]] in ValueNames(s.options)
    ensures var n, value := lookup[cs[0]], "-" + [cs[1]];
            && ParseArgs(lookup, s, ["-" + cs] + [])
               == ParseArgs(lookup, AddError(s, "option needs value: --" + n), ["-" + cs[1..]] + [])
            && ParseArgs(lookup, s, Spread(cs)) == ParseArgs(lookup, SetOptionValue(s, n, value), Spread(cs[2..]))
  {
    SpreadSwallows(lookup, s, cs);
    ClusterStep(lookup, s, cs, []);
    assert SetShort(lookup, s, cs[0]) == AddError(s, "option needs value: --" + lookup[cs[0]]);
  }

  lemma TextsDiffer(n: string, value: string)
    ensures "option needs value: --" + n != "option value is invalid: --" + n + "=" + value
  {
    assert ("option needs value: --" + n)[7] == 'n' && ("option value is invalid: --" + n + "=" + value)[7] == 'v';
  }

  lemma PrefixesDiffer<T>(s: seq<T>, x: T, y: T, left: seq<T>, right: seq<T>)
    requires x != y && s + [x] <= left && s + [y] <= right
    ensures left != right
  {
    assert left[|s|] == x && right[|s|] == y;
  }

  lemma VerdictsDiffer<V>(lookup: Lookup, s: State<V>, n: string, value: string, args: seq<string>, more: seq<string>)
    requires n in ValueNames(s.options) && SetOptionValue(s, n, value).errors != s.errors
    ensures ParseArgs(lookup, AddError(s, "option needs value: --" + n), args).errors
         != ParseArgs(lookup, SetOptionValue(s, n, value), more).errors
  {
    var left, right := AddError(s, "option needs value: --" + n), SetOptionValue(s, n, value);
    ParsingOnlyAddsErrors(lookup, left, args);
    ParsingOnlyAddsErrors(lookup, right, more);
    TextsDiffer(n, value);
    PrefixesDiffer(s.errors, "option needs value: --" + n, "option value is invalid: --" + n + "=" + value,
                   ParseArgs(lookup, left, args).errors, ParseArgs(lookup, right, more).errors);
  }

  /** When the value is accepted, the separate letters add fewer errors. */
  lemma FewerErrors<V>(lookup: Lookup, s: State<V>, right: State<V>, cs: string)
    requires |cs| > 1 && '-' !in cs && Faulty(lookup, s, cs[0]) && forall c :: c in lookup ==> lookup[c] != ""
    requires SameNames(s, right) && right.errors == s.errors
    ensures |ParseArgs(lookup, right, Spread(cs[2..])).errors| < |ParseArgs(lookup, s, ["-" + cs] + []).errors|
  {
    ClusterFaults(lookup, s, cs);
    SpreadFaults(lookup, right, cs[2..]);
    FaultsDependOnNames(lookup, s, right, cs[2..]);
    assert cs[1..][1..] == cs[2..];
  }

  lemma FrontOptionDiffers<V>(lookup: Lookup, s: State<V>, cs: string)
    requires |cs| > 1 && '-' !in cs && forall c :: c in lookup ==> lookup[c] != ""
    requires cs[0] in lookup && lookup[cs[0]] in ValueNames(s.options)
    ensures ParseArgs(lookup, s, ["-" + cs] + []) != ParseArgs(lookup, s, Spread(cs))
  {
    var n, value := lookup[cs[0]], "-" + [cs[1]];
    FrontOption(lookup, s, cs);
    if SetOptionValue(s, n, value).errors == s.errors {
      FewerErrors(lookup, s, SetOptionValue(s, n, value), cs);
    } else {
      VerdictsDiffer(lookup, s, n, value, ["-" + cs[1..]] + [], Spread(cs[2..]));
    }
  }

  /** A first letter that takes no value is set in both forms alike. */
  lemma FrontFlag<V>(lookup: Lookup, s: State<V>, cs: string)
    requires |cs| > 1 && '-' !in cs && (cs[0] in lookup ==> lookup[cs[0]] !in ValueNames(s.options))
    ensures var t := SetShort(lookup, s, cs[0]);
            && ParseArgs(lookup, s, ["-" + cs] + []) == ParseArgs(lookup, t, ["-" + cs[1..]] + [])
            && ParseArgs(lookup, s, Spread(cs)) == ParseArgs(lookup, t, Spread(cs[1..]))
  {
    ClusterStep(lookup, s, cs, []);
    SingleStep(lookup, s, cs[0], Spread(cs[1..]));
    assert Spread(cs) == ["-" + [cs[0]]] + Spread(cs[1..]);
  }

  lemma LaterOption(valueNames: set<string>, lookup: Lookup, cs: string)
    requires !OnlyLastTakesValue(valueNames, lookup, cs) && (cs[0] in lookup ==> lookup[cs[0]] !in valueNames)
    ensures !OnlyLastTakesValue(valueNames, lookup, cs[1..])
  {
    var i :| 0 <= i < |cs| - 1 && cs[i] in lookup && lookup[cs[i]] in valueNames;
    assert cs[1..][i - 1] == cs[i];
  }

  lemma {:induction false} ClusterDiffers<V>(lookup: Lookup, s: State<V>, cs: string)
    requires '-' !in cs && forall c :: c in lookup ==> lookup[c] != ""
    requires !OnlyLastTakesValue(ValueNames(s.options), lookup, cs)
    ensures ParseArgs(lookup, s, ["-" + cs] + []) != ParseArgs(lookup, s, Spread(cs))
    decreases |cs|
  {
    if cs[0] in lookup && lookup[cs[0]] in ValueNames(s.options) {
      FrontOptionDiffers(lookup, s, cs);
    } else {
      FrontFlag(lookup, s, cs);
      LaterOption(ValueNames(s.options), lookup, cs);
      ClusterDiffers(lookup, SetShort(lookup, s, cs[0]), cs[1..]);
    }
  }

  lemma TakesOne<V>(lookup: Lookup, t: State<V>, m: string, value: string, rest: seq<string>)
    requires Consumes(ValueNames(t.options), lookup, m)
    ensures ParseArgs(lookup, t, [m, value] + rest) == ParseArgs(lookup, ParseOne(lookup, t, m, Some(value)).0, rest)
  {
    var args := [m, value] + rest;
    assert args[0] == m && args[1] == value && args[2..] == rest;
    assert ParseOne(lookup, t, m, Some(value)).1;
  }

  lemma AlignedThenTakes<V>(lookup: Lookup, s: State<V>, args: seq<string>, front: seq<string>, m: string,
                            value: string, rest: seq<string>)
    requires Aligned(ValueNames(s.options), lookup, front) && Consumes(ValueNames(s.options), lookup, m)
    requires args == front + ([m, value] + rest)
    ensures ParseArgs(lookup, s, args)
      == ParseArgs(lookup, ParseOne(lookup, ParseArgs(lookup, s, front), m, Some(value)).0, rest)
  {
    ParseArgsSplit(lookup, s, front, [m, value] + rest);
    TakesOne(lookup, ParseArgs(lookup, s, front), m, value, rest);
  }

  /** Behind an option m that waits for its value, a cluster goes to that option as a whole. */
  lemma ClusterBehindWaiting<V>(lookup: Lookup, s: State<V>, front: seq<string>, m: string, cs: string, b: seq<string>)
    requires Aligned(ValueNames(s.options), lookup, front) && Consumes(ValueNames(s.options), lookup, m)
    ensures ParseArgs(lookup, s, front + ([m, "-" + cs] + b))
         == ParseArgs(lookup, ParseOne(lookup, ParseArgs(lookup, s, front), m, Some("-" + cs)).0, b)
  {
    AlignedThenTakes(lookup, s, front + ([m, "-" + cs] + b), front, m, "-" + cs, b);
  }

  /** But of the separate letters only the first goes to it, and the others are read as arguments. */
  lemma SpreadBehindWaiting<V>(lookup: Lookup, s: State<V>, front: seq<string>, m: string, cs: string, b: seq<string>)
    requires Aligned(ValueNames(s.options), lookup, front) && Consumes(ValueNames(s.options), lookup, m) && cs != []
    ensures ParseArgs(lookup, s, front + ([m] + Spread(cs) + b))
         == ParseArgs(lookup, ParseOne(lookup, ParseArgs(lookup, s, front), m, Some("-" + [cs[0]])).0,
                      Spread(cs[1..]) + b)
  {
    SpreadJoins(front, m, cs, b);
    AlignedThenTakes(lookup, s, front + ([m] + Spread(cs) + b), front, m, "-" + [cs[0]], Spread(cs[1..]) + b);
  }

  lemma SpreadJoins(front: seq<string>, m: string, cs: string, b: seq<string>)
    requires cs != []
    ensures front + ([m] + Spread(cs) + b) == front + ([m, "-" + [cs[0]]] + (Spread(cs[1..]) + b))
  {
    assert [m] + Spread(cs) + b == [m, "-" + [cs[0]]] + (Spread(cs[1..]) + b);
  }

  /** The option that an argument waits to give a value to. */
  function WaitingName(lookup: Lookup, m: string): string
    requires IsLong(m) || (IsShort(m) && |m| > 1 && m[|m| - 1] in lookup)
  {
    if IsLong(m) then m[2..] else lookup[m[|m| - 1]]
  }

  /** Options set without a value leave the value options as they are. */
  lemma {:induction false} ShortsSpareValues<V>(lookup: Lookup, s: State<V>, cs: string, n: string)
    requires n in s.options && s.options[n].Valued?
    ensures var t := SetShorts(lookup, s, cs); n in t.options && t.options[n] == s.options[n]
    decreases |cs|
  {
    if cs != [] { ShortsSpareValues(lookup, SetShort(lookup, s, cs[0]), cs[1..], n); }
  }

  /** At the end of a command line, separate letters that need no value but perhaps the last only set flags and add
      errors. */
  lemma {:induction false} SpreadSetsShorts<V>(lookup: Lookup, s: State<V>, cs: string)
    requires '-' !in cs && OnlyLastTakesValue(ValueNames(s.options), lookup, cs)
    ensures ParseArgs(lookup, s, Spread(cs)) == SetShorts(lookup, s, cs)
    decreases |cs|
  {
    if |cs| == 1 {
      LoneSpread(cs);
      LoneShort(lookup, s, cs[0]);
      assert cs[1..] == [] && cs == [cs[0]];
      assert SetShorts(lookup, s, cs) == SetShorts(lookup, SetShort(lookup, s, cs[0]), []);
    } else if cs != [] {
      SingleStep(lookup, s, cs[0], Spread(cs[1..]));
      SpreadSetsShorts(lookup, SetShort(lookup, s, cs[0]), cs[1..]);
    }
  }

  /** What the waiting option holds once it has taken its value. */
  lemma WaitingTakes<V>(lookup: Lookup, t: State<V>, m: string, value: string)
    requires Consumes(ValueNames(t.options), lookup, m)
    ensures var n := WaitingName(lookup, m);
            var u := ParseOne(lookup, t, m, Some(value)).0;
            && n in t.options && t.options[n].Valued?
            && n in u.options && u.options[n].Valued?
            && (t.options[n].reader(value).Some? ==> u.options[n].actual == t.options[n].reader(value).value)
  {
    var n := WaitingName(lookup, m);
    if !IsLong(m) { ShortsSpareValues(lookup, t, m[1..|m| - 1], n); }
  }

  /** So behind a waiting option whose reader tells the cluster from its first letter, the two forms of a cluster of
      two or more letters differ, unless a letter in the middle takes a value of its own. */
  lemma WaitingTellsApart<V>(lookup: Lookup, s: State<V>, front: seq<string>, m: string, cs: string)
    requires Aligned(ValueNames(s.options), lookup, front) && Consumes(ValueNames(s.options), lookup, m)
    requires |cs| > 1 && '-' !in cs && OnlyLastTakesValue(ValueNames(s.options), lookup, cs[1..])
    requires TellsApart(lookup, ParseArgs(lookup, s, front), m, "-" + cs, "-" + [cs[0]])
    ensures ParseArgs(lookup, s, front + ([m, "-" + cs] + [])) != ParseArgs(lookup, s, front + ([m] + Spread(cs) + []))
  {
    ClusterBehindWaiting(lookup, s, front, m, cs, []);
    SpreadBehindWaiting(lookup, s, front, m, cs, []);
    DifferentValuesStay(lookup, ParseArgs(lookup, s, front), m, "-" + cs, "-" + [cs[0]], cs[1..]);
  }

  /** The reader of the option that m waits to give a value to accepts both values, as different ones. */
  ghost predicate TellsApart<V>(lookup: Lookup, t: State<V>, m: string, value: string, other: string) {
    && Consumes(ValueNames(t.options), lookup, m)
    && var n := WaitingName(lookup, m);
       && n in t.options && t.options[n].Valued?
       && t.options[n].reader(value).Some? && t.options[n].reader(other).Some?
       && t.options[n].reader(value) != t.options[n].reader(other)
  }

  lemma DifferentValuesStay<V>(lookup: Lookup, t: State<V>, m: string, value: string, other: string, cs: string)
    requires TellsApart(lookup, t, m, value, other)
    requires '-' !in cs && OnlyLastTakesValue(ValueNames(t.options), lookup, cs)
    ensures ParseArgs(lookup, ParseOne(lookup, t, m, Some(value)).0, [])
         != ParseArgs(lookup, ParseOne(lookup, t, m, Some(other)).0, Spread(cs) + [])
  {
    WaitingTakes(lookup, t, m, value);
    WaitingTakes(lookup, t, m, other);
    LettersSpareValue(lookup, ParseOne(lookup, t, m, Some(other)).0, cs, WaitingName(lookup, m));
  }

  lemma LettersSpareValue<V>(lookup: Lookup, u: State<V>, cs: string, n: string)
    requires '-' !in cs && OnlyLastTakesValue(ValueNames(u.options), lookup, cs)
    requires n in u.options && u.options[n].Valued?
    ensures var r := ParseArgs(lookup, u, Spread(cs) + []); n in r.options && r.options[n] == u.options[n]
  {
    assert Spread(cs) + [] == Spread(cs);
    SpreadSetsShorts(lookup, u, cs);
    ShortsSpareValues(lookup, u, cs, n);
  }

  lemma BehindAligned<V>(lookup: Lookup, s: State<V>, a: seq<string>, args: seq<string>)
    requires Aligned(ValueNames(s.options), lookup, a)
    ensures ParseArgs(lookup, s, a + args + []) == ParseArgs(lookup, ParseArgs(lookup, s, a), args)
  {
    assert a + args + [] == a + args;
    ParseArgsSplit(lookup, s, a, args);
  }

  lemma ClustersDiffer<V>(lookup: Lookup, s: State<V>, a: seq<string>, cs: string)
    requires '-' !in cs && forall c :: c in lookup ==> lookup[c] != ""
    requires Aligned(ValueNames(s.options), lookup, a) && !OnlyLastTakesValue(ValueNames(s.options), lookup, cs)
    ensures ParseArgs(lookup, s, a + ["-" + cs] + []) != ParseArgs(lookup, s, a + Spread(cs) + [])
  {
    var t := ParseArgs(lookup, s, a);
    ClusterDiffers(lookup, t, cs);
    BehindAligned(lookup, s, a, ["-" + cs]);
    BehindAligned(lookup, s, a, Spread(cs));
    var cluster: seq<string> := ["-" + cs];
    assert cluster + [] == cluster;
  }

  /** Where it is read as an argument, a cluster means its letters given separately, whatever follows,
      if and only if none of them but the last names an option that takes a value. */
  lemma ClustersSpreadExactly<V>(lookup: Lookup, s: State<V>, a: seq<string>, cs: string)
    requires cs != [] && '-' !in cs && forall c :: c in lookup ==> lookup[c] != ""
    requires Aligned(ValueNames(s.options), lookup, a)
    ensures (forall b :: ParseArgs(lookup, s, a + ["-" + cs] + b) == ParseArgs(lookup, s, a + Spread(cs) + b))
            <==> OnlyLastTakesValue(ValueNames(s.options), lookup, cs)
  {
    if OnlyLastTakesValue(ValueNames(s.options), lookup, cs) {
      forall b ensures ParseArgs(lookup, s, a + ["-" + cs] + b) == ParseArgs(lookup, s, a + Spread(cs) + b) {
        ClustersSpread(lookup, s, a, cs, b);
      }
    } else {
      ClustersDiffer(lookup, s, a, cs);
    }
  }

  /** The same for whole command lines: options, errors, rest and hence the result of parse agree. */
  lemma CommandLinesAgree<V>(names: seq<string>, options: map<string, Opt<V>>, program: string,
                             a: seq<string>, n: string, v: string, cs: string, b: seq<string>)
    requires forall m :: m in names ==> m in options
    requires BuildLookup(names, options, map[]).Found? ==>
             Aligned(ValueNames(options), BuildLookup(names, options, map[]).lookup, a)
    ensures n in options && options[n].Valued? && '=' !in n ==>
            (Parse(names, options, [program] + (a + [Joined(n, v)] + b))
             == Parse(names, options, [program] + (a + [Separate(n), v] + b)))
    ensures BuildLookup(names, options, map[]).Found? && cs != [] && '-' !in cs
            && OnlyLastTakesValue(ValueNames(options), BuildLookup(names, options, map[]).lookup, cs) ==>
            (Parse(names, options, [program] + (a + ["-" + cs] + b))
             == Parse(names, options, [program] + (a + Spread(cs) + b)))
  {
    match BuildLookup(names, options, map[]) {
      case Ambiguous(_) =>
      case Found(lookup) =>
        var s := State(options, [], []);
        if n in options && options[n].Valued? && '=' !in n {
          LongSpellingsAgree(lookup, s, a, n, v, b);
        }
        if cs != [] && '-' !in cs && OnlyLastTakesValue(ValueNames(options), lookup, cs) {
          ClustersSpread(lookup, s, a, cs, b);
        }
    }
  }

  // ---------------------------------------------------------------- the tokenizer

  datatype Tokens = Tokens(args: seq<string>) | BackslashAtEnd | OpenQuote

  /** The scan from any point: the token so far, whether inside quotes, the tokens completed. */
  function Scan(s: string, buf: string, inQuote: bool, args: seq<string>): Tokens
    decreases |s|
  {
    if s == [] then
      if inQuote then OpenQuote else Tokens(if buf != [] then args + [buf] else args)
    else if s[0] == '"' then Scan(s[1..], buf, !inQuote, args)
    else if s[0] == ' ' && !inQuote then Scan(s[1..], "", inQuote, args + [buf])
    else if s[0] == '\\' then
      if |s| == 1 then BackslashAtEnd else Scan(s[2..], buf + [s[1]], inQuote, args)
    else Scan(s[1..], buf + [s[0]], inQuote, args)
  }

  function Tokenize(s: string): Tokens {
    Scan(s, "", false, [])
  }

  /** An argument in quotes, with a backslash before each quote and backslash. */
  function Escape(a: string): string {
    if a == [] then [] else EscapeChar(a[0]) + Escape(a[1..])
  }

  function EscapeChar(c: char): string {
    if c == '"' || c == '\\' then ['\\', c] else [c]
  }

  function Quote(a: string): string {
    "\"" + Escape(a) + "\""
  }

  function QuoteAll(args: seq<string>): string {
    if args == [] then [] else if |args| == 1 then Quote(args[0]) else Quote(args[0]) + " " + QuoteAll(args[1..])
  }

  lemma {:induction false} ScanEscaped(a: string, rest: string, buf: string, args: seq<string>)
    ensures Scan(Escape(a) + rest, buf, true, args) == Scan(rest, buf + a, true, args)
    decreases |a|
  {
    if a == [] {
      assert Escape(a) + rest == rest && buf + a == buf;
    } else {
      var tail := Escape(a[1..]) + rest;
      ScanEscapedChar(a[0], tail, buf, args);
      assert Escape(a) + rest == EscapeChar(a[0]) + tail;
      ScanEscaped(a[1..], rest, buf + [a[0]], args);
      assert buf + [a[0]] + a[1..] == buf + a;
    }
  }

  lemma ScanEscapedChar(c: char, tail: string, buf: string, args: seq<string>)
    ensures Scan(EscapeChar(c) + tail, buf, true, args) == Scan(tail, buf + [c], true, args)
  {
    var s := EscapeChar(c) + tail;
    if c == '"' || c == '\\' {
      assert s == ['\\', c] + tail && s[2..] == tail;
    } else {
      assert s == [c] + tail && s[1..] == tail;
    }
  }

  lemma ScanQuoted(a: string, rest: string, args: seq<string>)
    ensures Scan(Quote(a) + rest, "", false, args) == Scan(rest, a, false, args)
  {
    var inner := Escape(a) + ("\"" + rest);
    assert Quote(a) + rest == "\"" + inner && ("\"" + inner)[1..] == inner;
    ScanEscaped(a, "\"" + rest, "", args);
    assert "" + a == a && ("\"" + rest)[1..] == rest;
  }

  /** An empty last token is not recorded. */
  function Recorded(args: seq<string>): seq<string> {
    if args != [] && args[|args| - 1] == "" then args[..|args| - 1] else args
  }

  lemma {:induction false} ScanQuotedAll(args: seq<string>, done: seq<string>)
    ensures Scan(QuoteAll(args), "", false, done) == Tokens(done + Recorded(args))
    decreases |args|
  {
    if args == [] {
      assert done + args == done;
    } else if |args| == 1 {
      ScanQuotedLast(args[0], done);
      assert args == [args[0]] && done + args[..0] == done;
    } else {
      ScanQuotedFirst(args[0], QuoteAll(args[1..]), done);
      ScanQuotedAll(args[1..], done + [args[0]]);
      RecordedTail(args, done);
    }
  }

  lemma ScanQuotedLast(a: string, done: seq<string>)
    ensures Scan(Quote(a), "", false, done) == Tokens(if a != [] then done + [a] else done)
  {
    assert Quote(a) + "" == Quote(a);
    ScanQuoted(a, "", done);
  }

  lemma ScanQuotedFirst(a: string, rest: string, done: seq<string>)
    ensures Scan(Quote(a) + " " + rest, "", false, done) == Scan(rest, "", false, done + [a])
  {
    var tail := " " + rest;
    assert Quote(a) + " " + rest == Quote(a) + tail;
    ScanQuoted(a, tail, done);
    assert tail[1..] == rest;
  }

  lemma RecordedTail(args: seq<string>, done: seq<string>)
    requires |args| > 1
    ensures done + [args[0]] + Recorded(args[1..]) == done + Recorded(args)
  {
    assert args == [args[0]] + args[1..];
    assert args[..|args| - 1] == [args[0]] + args[1..][..|args| - 2];
  }

  /** Quoting is undone by the tokenizer for every list of arguments whose last one is not empty, and for no other. */
  lemma TokenizeUndoesQuotingExactly(args: seq<string>)
    ensures Tokenize(QuoteAll(args)) == Tokens(args) <==> args == [] || args[|args| - 1] != ""
  {
    ScanQuotedAll(args, []);
    assert [] + Recorded(args) == Recorded(args);
  }

  // ---------------------------------------------------------------- the parser object

  class Parser<V> {
    var options: map<string, Opt<V>>
    var names: seq<string>            // the keys of options in their iteration order
    var progName: string
    var others: seq<string>
    var errors: seq<string>

    ghost predicate Valid()
      reads this
    {
      forall n :: n in names <==> n in options
    }

    function View(): State<V>
      reads this
    {
      State(options, errors, others)
    }

    constructor (options: map<string, Opt<V>>, names: seq<string>)
      requires forall n :: n in names <==> n in options
      ensures Valid() && this.options == options && this.names == names
    {
      this.options, this.names := options, names;
      progName, others, errors := "", [], [];
    }

    method SetFlag(name: string)
      modifies this`options, this`errors
      ensures View() == SetOption(old(View()), name)
      ensures name in options && options[name].Flag? ==> options[name].has && errors == old(errors)
    {
      if name !in options {
        errors := errors + ["undefined option: --" + name];
        return;
      }
      match options[name]
      case Flag(short, _) => options := options[name := Flag(short, true)];
      case Valued(_, _, _, _, _) => errors := errors + ["option needs value: --" + name];
    }

    method SetValue(name: string, value: string)
      modifies this`options, this`errors
      ensures View() == SetOptionValue(old(View()), name, value)
      ensures name in options && options[name].Valued? && options[name].reader(value).Some? ==>
        options[name].has && options[name].actual == options[name].reader(value).value && errors == old(errors)
    {
      if name !in options {
        errors := errors + ["undefined option: --" + name];
        return;
      }
      var ok := false;
      match options[name] {
        case Flag(_, _) =>
        case Valued(short, need, _, _, reader) =>
          var v := reader(value);
          if v.Some? {
            options := options[name := Valued(short, need, true, v.value, reader)];
            ok := true;
          }
      }
      if !ok {
        errors := errors + ["option value is invalid: --" + name + "=" + value];
      }
    }

    /** The table of short names; None after an ambiguity, which is reported. */
    method MakeLookup() returns (lookup: Option<Lookup>)
      requires Valid()
      modifies this`errors
      ensures match BuildLookup(names, options, map[])
              case Found(l) => lookup == Some(l) && errors == old(errors)
              case Ambiguous(c) => lookup == None && errors == old(errors) + ["short option '" + [c] + "' is ambiguous"]
    {
      var l: Lookup := map[];
      var i := 0;
      while i < |names|
        invariant 0 <= i <= |names| && errors == old(errors)
        invariant BuildLookup(names[i..], options, l) == BuildLookup(names, options, map[])
      {
        assert names[i..][1..] == names[i + 1..];
        var initial := options[names[i]].short;
        if names[i] != "" && initial != '\0' {
          if initial in l {
            errors := errors + ["short option '" + [initial] + "' is ambiguous"];
            return None;
          }
          l := l[initial := names[i]];
        }
        i := i + 1;
      }
      return Some(l);
    }

    /** The short options of a cluster except the last. */
    method SetCluster(lookup: Lookup, arg: string)
      requires |arg| > 1
      modifies this`options, this`errors
      ensures View() == SetShorts(lookup, old(View()), arg[1..|arg| - 1])
    {
      var j := 2;
      ghost var front := arg[1..|arg| - 1];
      while j < |arg|
        invariant 2 <= j <= |arg|
        invariant SetShorts(lookup, View(), front[j - 2..]) == SetShorts(lookup, old(View()), front)
        invariant others == old(others)
      {
        assert front[j - 2..][0] == arg[j - 1] && front[j - 2..][1..] == front[j - 1..];
        SetOneShort(lookup, arg[j - 1]);
        j := j + 1;
      }
      assert front[j - 2..] == [];
    }

    method SetOneShort(lookup: Lookup, c: char)
      modifies this`options, this`errors
      ensures View() == SetShort(lookup, old(View()), c)
    {
      if c !in lookup {
        errors := errors + ["undefined short option: -" + [c]];
      } else if lookup[c] == "" {
        errors := errors + ["ambiguous short option: -" + [c]];
      } else {
        SetFlag(lookup[c]);
      }
    }

    /** One argument; next is the one behind it, if any. */
    method ParseArgument(lookup: Lookup, arg: string, next: Option<string>) returns (used: bool)
      modifies this`options, this`errors, this`others
      ensures (View(), used) == ParseOne(lookup, old(View()), arg, next)
    {
      used := false;
      if IsLong(arg) {
        var body := arg[2..];
        var p := IndexOf(body, '=');
        if p < |body| {
          SetValue(body[..p], body[p + 1..]);
        } else if body !in options {
          errors := errors + ["undefined option: --" + body];
        } else if options[body].Valued? {
          if next.None? {
            errors := errors + ["option needs value: --" + body];
          } else {
            used := true;
            SetValue(body, next.value);
          }
        } else {
          SetFlag(body);
        }
      } else if IsShort(arg) {
        if |arg| == 1 { return; }
        SetCluster(lookup, arg);
        var last := arg[|arg| - 1];
        if next.Some? && last in lookup && lookup[last] != "" && lookup[last] in options
          && options[lookup[last]].Valued? {
          SetValue(lookup[last], next.value);
          used := true;
        } else {
          SetOneShort(lookup, last);
        }
      } else {
        others := others + [arg];
      }
    }

    method ParseArgv(argv: seq<string>) returns (ok: bool)
      requires Valid()
      modifies this
      ensures Valid() && names == old(names)
      ensures View() == Parse(names, old(options), argv)
      ensures ok <==> errors == []
      ensures progName == if old(progName) == "" && argv != [] then argv[0] else old(progName)
    {
      errors := [];
      others := [];
      if |argv| < 1 {
        errors := errors + ["argument number must be longer than 0"];
        return false;
      }
      if progName == "" {
        progName := argv[0];
      }
      var lookup := MakeLookup();
      if lookup.None? { return false; }
      var i := 1;
      while i < |argv|
        invariant 1 <= i <= |argv| && names == old(names)
        invariant ParseArgs(lookup.value, View(), argv[i..])
               == ParseArgs(lookup.value, State(old(options), [], []), argv[1..])
        invariant options.Keys == old(options).Keys
        invariant progName == if old(progName) == "" then argv[0] else old(progName)
      {
        assert argv[i..][0] == argv[i] && argv[i..][1..] == argv[i + 1..];
        assert i + 1 < |argv| ==> argv[i..][1] == argv[i + 1] && argv[i..][2..] == argv[i + 2..];
        var used := ParseArgument(lookup.value, argv[i], if i + 1 < |argv| then Some(argv[i + 1]) else None);
        i := i + if used then 2 else 1;
      }
      CheckNeeded();
      return |errors| == 0;
    }

    /** The final loop over all options. */
    method CheckNeeded()
      requires Valid()
      modifies this`errors
      ensures errors == old(errors) + MissingErrors(names, options)
    {
      var i := 0;
      while i < |names|
        invariant 0 <= i <= |names|
        invariant errors + MissingErrors(names[i..], options) == old(errors) + MissingErrors(names, options)
      {
        assert names[i..][0] == names[i] && names[i..][1..] == names[i + 1..];
        ghost var rest := MissingErrors(names[i + 1..], options);
        if !IsValid(options[names[i]]) {
          var error := "need option: --" + names[i];
          assert errors + ([error] + rest) == errors + [error] + rest;
          errors := errors + [error];
        } else {
          assert [] + rest == rest;
        }
        i := i + 1;
      }
    }

    /** The string form: tokenizes and parses; tokenizing errors are only appended. */
    method ParseString(arg: string) returns (ok: bool)
      requires Valid()
      modifies this
      ensures Valid()
      ensures match Tokenize(arg)
              case Tokens(args) => View() == Parse(old(names), old(options), args) && (ok <==> errors == [])
              case BackslashAtEnd =>
                !ok && View() == AddError(old(View()), "unexpected occurrence of '\\' at end of string")
              case OpenQuote => !ok && View() == AddError(old(View()), "quote is not closed")
    {
      var args: seq<string> := [];
      var buf := "";
      var inQuote := false;
      var i := 0;
      while i < |arg|
        invariant 0 <= i <= |arg| && View() == old(View()) && names == old(names)
        invariant Scan(arg[i..], buf, inQuote, args) == Tokenize(arg)
      {
        assert arg[i..][1..] == arg[i + 1..];
        if arg[i] == '"' {
          inQuote := !inQuote;
          i := i + 1;
          continue;
        }
        if arg[i] == ' ' && !inQuote {
          args := args + [buf];
          buf := "";
          i := i + 1;
          continue;
        }
        if arg[i] == '\\' {
          assert i + 1 < |arg| ==> arg[i..][2..] == arg[i + 2..] && arg[i..][1] == arg[i + 1];
          i := i + 1;
          if i >= |arg| {
            errors := errors + ["unexpected occurrence of '\\' at end of string"];
            return false;
          }
        }
        buf := buf + [arg[i]];
        i := i + 1;
      }
      if inQuote {
        errors := errors + ["quote is not closed"];
        return false;
      }
      if |buf| > 0 {
        args := args + [buf];
      }
      ok := ParseArgv(args);
    }
  }
}
