/** What a command line does: which options end up set, with which values, which arguments are complained about, and
    when a parse succeeds. */
module CmdLineEffect {
  import opened Options
  import opened Sequences
  import opened CmdLine

  // ---------------------------------------------------------------- what stays

  /** The same options with the same short names, needs and readers; has and value may differ. */
  ghost predicate Kin<V>(o: Opt<V>, p: Opt<V>) {
    match o
    case Flag(short, _) => p.Flag? && p.short == short
    case Valued(short, need, _, _, reader) => p.Valued? && p.short == short && p.need == need && p.reader == reader
  }

  ghost predicate SameKinds<V>(s: State<V>, t: State<V>) {
    s.options.Keys == t.options.Keys && forall n :: n in s.options ==> Kin(s.options[n], t.options[n])
  }

  lemma {:induction false} ShortsKeepKinds<V>(lookup: Lookup, s: State<V>, cs: string)
    ensures SameKinds(s, SetShorts(lookup, s, cs))
    decreases |cs|
  {
    if cs != [] { ShortsKeepKinds(lookup, SetShort(lookup, s, cs[0]), cs[1..]); }
  }

  lemma OneKeepsKinds<V>(lookup: Lookup, s: State<V>, m: string, next: Option<string>)
    ensures SameKinds(s, ParseOne(lookup, s, m, next).0)
  {
    if IsShort(m) && |m| > 1 { ShortsKeepKinds(lookup, s, m[1..|m| - 1]); }
  }

  // ---------------------------------------------------------------- what an argument gives

  /** The argument m sets the flag n: by its long name, or by a letter of a cluster. */
  ghost predicate GivesFlag<V>(lookup: Lookup, s: State<V>, m: string, n: string) {
    && n in s.options && s.options[n].Flag?
    && ((m == Separate(n) && '=' !in n) || (IsShort(m) && NamedBy(lookup, m[1..], n)))
  }

  /** One of the letters is the short name of n. */
  ghost predicate NamedBy(lookup: Lookup, cs: string, n: string) {
    n != "" && exists c :: c in cs && c in lookup && lookup[c] == n
  }

  /** The argument m, with the next one behind it, gives the option n the acceptable value v. */
  ghost predicate GivesValue<V>(lookup: Lookup, s: State<V>, m: string, next: Option<string>, n: string, v: string) {
    && n in s.options && s.options[n].Valued? && s.options[n].reader(v).Some?
    && ((m == Joined(n, v) && '=' !in n)
        || (m == Separate(n) && '=' !in n && next == Some(v))
        || (IsShort(m) && |m| > 1 && LastNames(lookup, m, n) && next == Some(v)))
  }

  ghost predicate LastNames(lookup: Lookup, m: string, n: string)
    requires |m| > 0
  {
    n != "" && m[|m| - 1] in lookup && lookup[m[|m| - 1]] == n
  }

  ghost predicate Gives<V>(lookup: Lookup, s: State<V>, m: string, next: Option<string>, n: string) {
    GivesFlag(lookup, s, m, n) || exists v :: GivesValue(lookup, s, m, next, n, v)
  }

  predicate IsFlag<V>(s: State<V>, n: string) {
    n in s.options && s.options[n].Flag?
  }

  /** The value is refused for n: no such option, a flag, or not to the reader's liking. */
  predicate Refuses<V>(s: State<V>, n: string, v: string) {
    n !in s.options || s.options[n].Flag? || s.options[n].reader(v).None?
  }

  /** The argument is complained about. */
  ghost predicate Complains<V>(lookup: Lookup, s: State<V>, m: string, next: Option<string>) {
    if IsLong(m) && '=' in m[2..] then
      exists n, v :: m == Joined(n, v) && '=' !in n && Refuses(s, n, v)
    else if IsLong(m) then
      !IsFlag(s, m[2..]) && (next.None? || Refuses(s, m[2..], next.value))
    else if IsShort(m) && |m| > 1 then
      || (exists c :: c in m[1..|m| - 1] && BadLetter(lookup, s, c))
      || (BadLetter(lookup, s, m[|m| - 1])
          && (next.None? || m[|m| - 1] !in lookup || lookup[m[|m| - 1]] == ""
              || Refuses(s, lookup[m[|m| - 1]], next.value)))
    else false
  }

  /** The letter names no flag. */
  predicate BadLetter<V>(lookup: Lookup, s: State<V>, c: char) {
    c !in lookup || lookup[c] == "" || !IsFlag(s, lookup[c])
  }

  predicate HasOpt<V>(s: State<V>, n: string) {
    n in s.options && s.options[n].has
  }

  // ---------------------------------------------------------------- one argument

  /** "--n=v" can be taken apart in one way only. */
  lemma JoinedUnique(m: string)
    requires IsLong(m) && '=' in m[2..]
    ensures var body := m[2..];
            var p := IndexOf(body, '=');
            && p < |body| && m == Joined(body[..p], body[p + 1..]) && '=' !in body[..p]
            && forall n, v :: m == Joined(n, v) && '=' !in n ==> n == body[..p] && v == body[p + 1..]
  {
    var body := m[2..];
    var p := IndexOf(body, '=');
    assert body[..|body|] == body;
    assert m == "--" + body && body == body[..p] + "=" + body[p + 1..];
    forall n, v | m == Joined(n, v) && '=' !in n ensures n == body[..p] && v == body[p + 1..] {
      JoinedTaken(m, n, v);
    }
  }

  lemma JoinedTaken(m: string, n: string, v: string)
    requires m == Joined(n, v) && '=' !in n
    ensures var body := m[2..];
            IndexOf(body, '=') == |n| < |body| && body[..|n|] == n && body[|n| + 1..] == v
  {
    var body := m[2..];
    assert body == n + "=" + v;
    IndexOfIs(body, '=', |n|);
  }

  lemma JoinedIsLong(n: string, v: string)
    ensures IsLong(Joined(n, v)) && Joined(n, v)[2..] == n + "=" + v && '=' in Joined(n, v)[2..]
    ensures IsLong(Separate(n)) && Separate(n)[2..] == n
  {
    assert Joined(n, v)[2..] == n + "=" + v;
    assert (n + "=" + v)[|n|] == '=';
  }

  lemma LongJoined<V>(lookup: Lookup, s: State<V>, m: string, next: Option<string>, n: string)
    requires IsLong(m) && '=' in m[2..]
    ensures var t := ParseOne(lookup, s, m, next).0;
            && (HasOpt(t, n) <==> HasOpt(s, n) || Gives(lookup, s, m, next, n))
            && (t.errors == s.errors <==> !Complains(lookup, s, m, next))
  {
    JoinedUnique(m);
    var p := IndexOf(m[2..], '=');
    var k, v := m[2..][..p], m[2..][p + 1..];
    assert ParseOne(lookup, s, m, next).0 == SetOptionValue(s, k, v);
    NotSeparate(m, n);
    assert GivesValue(lookup, s, m, next, k, v) <==> !Refuses(s, k, v);
    forall w | GivesValue(lookup, s, m, next, n, w) ensures n == k && w == v {}
  }

  lemma NotSeparate(m: string, n: string)
    requires IsLong(m) && '=' in m[2..]
    ensures !(m == Separate(n) && '=' !in n) && !IsShort(m)
  {
    if m == Separate(n) { assert m[2..] == n; }
  }

  lemma LongSeparate<V>(lookup: Lookup, s: State<V>, m: string, next: Option<string>, n: string)
    requires IsLong(m) && '=' !in m[2..]
    ensures var t := ParseOne(lookup, s, m, next).0;
            && (HasOpt(t, n) <==> HasOpt(s, n) || Gives(lookup, s, m, next, n))
            && (t.errors == s.errors <==> !Complains(lookup, s, m, next))
  {
    var k := m[2..];
    assert m == Separate(k);
    assert m == Separate(n) ==> n == k by { if m == Separate(n) { assert Separate(n)[2..] == n; } }
    forall w | m == Joined(n, w) ensures false { JoinedIsLong(n, w); }
    assert IndexOf(k, '=') == |k|;
    if next.Some? { assert GivesValue(lookup, s, m, next, k, next.value) <==> !Refuses(s, k, next.value); }
  }

  /** The letters of a cluster set the flags they name, and those that name none are complained about. */
  lemma {:induction false} ShortsGive<V>(lookup: Lookup, s: State<V>, cs: string, n: string)
    ensures var t := SetShorts(lookup, s, cs);
            && (HasOpt(t, n) <==> HasOpt(s, n) || (IsFlag(s, n) && NamedBy(lookup, cs, n)))
            && (t.errors == s.errors <==> forall c :: c in cs ==> !BadLetter(lookup, s, c))
    decreases |cs|
  {
    if cs != [] {
      var t := SetShort(lookup, s, cs[0]);
      ShortGives(lookup, s, cs[0], n);
      ShortsGive(lookup, t, cs[1..], n);
      ShortsOnlyAddErrors(lookup, t, cs[1..]);
      assert forall c :: c in cs <==> c == cs[0] || c in cs[1..];
      assert forall c :: BadLetter(lookup, t, c) <==> BadLetter(lookup, s, c);
    }
  }

  lemma ShortGives<V>(lookup: Lookup, s: State<V>, c: char, n: string)
    ensures var t := SetShort(lookup, s, c);
            && SameKinds(s, t) && s.errors <= t.errors
            && (HasOpt(t, n) <==> HasOpt(s, n) || (IsFlag(s, n) && n != "" && c in lookup && lookup[c] == n))
            && (t.errors == s.errors <==> !BadLetter(lookup, s, c))
  {
  }

  lemma ShortCluster<V>(lookup: Lookup, s: State<V>, m: string, next: Option<string>, n: string)
    requires IsShort(m) && |m| > 1
    ensures var t := ParseOne(lookup, s, m, next).0;
            && (HasOpt(t, n) <==> HasOpt(s, n) || Gives(lookup, s, m, next, n))
            && (t.errors == s.errors <==> !Complains(lookup, s, m, next))
  {
    var front, last := m[1..|m| - 1], m[|m| - 1];
    var u := SetShorts(lookup, s, front);
    ShortsGive(lookup, s, front, n);
    ShortsKeepKinds(lookup, s, front);
    ShortsOnlyAddErrors(lookup, s, front);
    ShortsSpareValue(lookup, s, front);
    NotLong(m, n);
    NamedSnoc(lookup, m, n);
    if next.Some? && last in lookup && lookup[last] != "" && lookup[last] in u.options
      && u.options[lookup[last]].Valued? {
      LastValue(lookup, s, u, m, next.value, n);
    } else {
      ShortGives(lookup, u, last, n);
    }
  }

  lemma NamedSnoc(lookup: Lookup, m: string, n: string)
    requires |m| > 1
    ensures NamedBy(lookup, m[1..], n) <==> NamedBy(lookup, m[1..|m| - 1], n) || LastNames(lookup, m, n)
  {
    assert m[1..] == m[1..|m| - 1] + [m[|m| - 1]];
  }

  /** The last letter of a cluster names a value option, which takes the next argument. */
  lemma LastValue<V>(lookup: Lookup, s: State<V>, u: State<V>, m: string, v: string, n: string)
    requires IsShort(m) && |m| > 1 && m[|m| - 1] in lookup
    requires var k := lookup[m[|m| - 1]]; k != "" && k in s.options && s.options[k].Valued?
    requires SameKinds(s, u)
    requires HasOpt(u, n) <==> HasOpt(s, n) || (IsFlag(s, n) && NamedBy(lookup, m[1..|m| - 1], n))
    ensures var t := SetOptionValue(u, lookup[m[|m| - 1]], v);
            && (HasOpt(t, n) <==> HasOpt(s, n) || Gives(lookup, s, m, Some(v), n))
            && (t.errors == u.errors <==> !Refuses(s, lookup[m[|m| - 1]], v))
  {
    var k := lookup[m[|m| - 1]];
    NotLong(m, n);
    NamedSnoc(lookup, m, n);
    assert n == k ==> (GivesValue(lookup, s, m, Some(v), n, v) <==> s.options[k].reader(v).Some?);
    forall w | GivesValue(lookup, s, m, Some(v), n, w) ensures w == v && n == k {}
  }

  lemma NotLong(m: string, n: string)
    requires IsShort(m)
    ensures m != Separate(n) && forall v :: m != Joined(n, v)
  {
    forall v ensures m != Joined(n, v) { JoinedIsLong(n, v); }
    JoinedIsLong(n, "");
  }

  lemma {:induction false} ShortsSpareValue<V>(lookup: Lookup, s: State<V>, cs: string)
    ensures var t := SetShorts(lookup, s, cs);
            forall n :: n in s.options && s.options[n].Valued? ==> n in t.options && t.options[n] == s.options[n]
    decreases |cs|
  {
    if cs != [] { ShortsSpareValue(lookup, SetShort(lookup, s, cs[0]), cs[1..]); }
  }

  /** Exactly the options that the argument gives become set, and it is complained about exactly when it is faulty. */
  lemma OneArgument<V>(lookup: Lookup, s: State<V>, m: string, next: Option<string>, n: string)
    ensures var t := ParseOne(lookup, s, m, next).0;
            && (HasOpt(t, n) <==> HasOpt(s, n) || Gives(lookup, s, m, next, n))
            && (t.errors == s.errors <==> !Complains(lookup, s, m, next))
            && SameKinds(s, t) && s.errors <= t.errors
  {
    OneKeepsKinds(lookup, s, m, next);
    OneOnlyAddsErrors(lookup, s, m, next);
    if IsLong(m) {
      if '=' in m[2..] { LongJoined(lookup, s, m, next, n); } else { LongSeparate(lookup, s, m, next, n); }
    } else {
      NoLongForm(m, n);
      if IsShort(m) && |m| > 1 {
        ShortCluster(lookup, s, m, next, n);
      } else if IsShort(m) {
        NothingNamed(lookup, m, n);
      }
    }
  }

  lemma OneOnlyAddsErrors<V>(lookup: Lookup, s: State<V>, m: string, next: Option<string>)
    ensures s.errors <= ParseOne(lookup, s, m, next).0.errors
  {
    if IsShort(m) && |m| > 1 { ShortsOnlyAddErrors(lookup, s, m[1..|m| - 1]); }
  }

  lemma NoLongForm(m: string, n: string)
    requires !IsLong(m)
    ensures m != Separate(n) && forall v :: m != Joined(n, v)
  {
    forall v ensures m != Joined(n, v) { JoinedIsLong(n, v); }
    JoinedIsLong(n, "");
  }

  lemma NothingNamed(lookup: Lookup, m: string, n: string)
    requires IsShort(m) && |m| <= 1
    ensures !NamedBy(lookup, m[1..], n)
  {
  }

  // ---------------------------------------------------------------- where arguments are read

  function NextOf(args: seq<string>, i: nat): Option<string> {
    if i + 1 < |args| then Some(args[i + 1]) else None
  }

  /** args[i] is read as an argument of its own, not as a value. */
  ghost predicate Reads(valueNames: set<string>, lookup: Lookup, args: seq<string>, i: nat) {
    i < |args| && Aligned(valueNames, lookup, args[..i])
  }

  ghost predicate Somewhere(valueNames: set<string>, lookup: Lookup, args: seq<string>,
                            p: (string, Option<string>) -> bool)
  {
    exists i: nat :: Reads(valueNames, lookup, args, i) && p(args[i], NextOf(args, i))
  }

  /** What is left behind the first argument and the value it takes. */
  function Behind(valueNames: set<string>, lookup: Lookup, args: seq<string>): seq<string>
    requires args != []
  {
    if |args| > 1 && Consumes(valueNames, lookup, args[0]) then args[2..] else args[1..]
  }

  lemma ReadsBehind(valueNames: set<string>, lookup: Lookup, args: seq<string>, i: nat)
    requires args != [] && i < |args|
    ensures var k := |args| - |Behind(valueNames, lookup, args)|;
            && (k <= i ==> (Reads(valueNames, lookup, args, i) <==>
                            Reads(valueNames, lookup, Behind(valueNames, lookup, args), i - k)))
            && (0 < i < k ==> !Reads(valueNames, lookup, args, i))
  {
    if i > 0 {
      assert args[..i][0] == args[0];
      if |args| > 1 && Consumes(valueNames, lookup, args[0]) {
        if i >= 2 { assert args[..i][2..] == args[2..][..i - 2]; }
      } else {
        assert args[..i][1..] == args[1..][..i - 1];
      }
    }
  }

  lemma SomewhereSplit(valueNames: set<string>, lookup: Lookup, args: seq<string>, p: (string, Option<string>) -> bool)
    requires args != []
    ensures Somewhere(valueNames, lookup, args, p)
       <==> p(args[0], NextOf(args, 0)) || Somewhere(valueNames, lookup, Behind(valueNames, lookup, args), p)
  {
    var rest := Behind(valueNames, lookup, args);
    var k := |args| - |rest|;
    if p(args[0], NextOf(args, 0)) {
      assert args[..0] == [] && Reads(valueNames, lookup, args, 0);
    }
    forall i: nat | Reads(valueNames, lookup, args, i) && p(args[i], NextOf(args, i)) && i > 0
      ensures Somewhere(valueNames, lookup, rest, p)
    {
      ReadsBehind(valueNames, lookup, args, i);
      assert rest[i - k] == args[i] && NextOf(rest, i - k) == NextOf(args, i);
    }
    forall j: nat | Reads(valueNames, lookup, rest, j) && p(rest[j], NextOf(rest, j))
      ensures Somewhere(valueNames, lookup, args, p)
    {
      ReadsBehind(valueNames, lookup, args, j + k);
      assert rest[j] == args[j + k] && NextOf(rest, j) == NextOf(args, j + k);
    }
  }

  lemma SomewhereSame(valueNames: set<string>, lookup: Lookup, args: seq<string>,
                      p: (string, Option<string>) -> bool, q: (string, Option<string>) -> bool)
    requires forall m, next :: p(m, next) <==> q(m, next)
    ensures Somewhere(valueNames, lookup, args, p) <==> Somewhere(valueNames, lookup, args, q)
  {
    forall i: nat | Reads(valueNames, lookup, args, i)
      ensures p(args[i], NextOf(args, i)) <==> q(args[i], NextOf(args, i)) {}
  }

  // ---------------------------------------------------------------- whole command lines

  /** Some argument gives the option n. */
  ghost predicate Given<V>(lookup: Lookup, s: State<V>, args: seq<string>, n: string) {
    Somewhere(ValueNames(s.options), lookup, args, (m, next) => Gives(lookup, s, m, next, n))
  }

  /** Some argument is faulty. */
  ghost predicate Faulted<V>(lookup: Lookup, s: State<V>, args: seq<string>) {
    Somewhere(ValueNames(s.options), lookup, args, (m, next) => Complains(lookup, s, m, next))
  }

  lemma KindsAgree<V>(lookup: Lookup, s: State<V>, t: State<V>, m: string, next: Option<string>, n: string)
    requires SameKinds(s, t)
    ensures Gives(lookup, s, m, next, n) <==> Gives(lookup, t, m, next, n)
    ensures Complains(lookup, s, m, next) <==> Complains(lookup, t, m, next)
  {
    assert forall k, v :: GivesValue(lookup, s, m, next, k, v) <==> GivesValue(lookup, t, m, next, k, v);
    assert forall k, v :: Refuses(s, k, v) <==> Refuses(t, k, v);
    assert forall c :: BadLetter(lookup, s, c) <==> BadLetter(lookup, t, c);
  }

  lemma LinesAgree<V>(lookup: Lookup, s: State<V>, t: State<V>, args: seq<string>, n: string)
    requires SameKinds(s, t)
    ensures ValueNames(s.options) == ValueNames(t.options)
    ensures Given(lookup, s, args, n) <==> Given(lookup, t, args, n)
    ensures Faulted(lookup, s, args) <==> Faulted(lookup, t, args)
  {
    forall m, next ensures Gives(lookup, s, m, next, n) <==> Gives(lookup, t, m, next, n)
                   ensures Complains(lookup, s, m, next) <==> Complains(lookup, t, m, next) {
      KindsAgree(lookup, s, t, m, next, n);
    }
    assert ValueNames(s.options) == ValueNames(t.options);
    SomewhereSame(ValueNames(s.options), lookup, args, (m, next) => Gives(lookup, s, m, next, n),
                  (m, next) => Gives(lookup, t, m, next, n));
    SomewhereSame(ValueNames(s.options), lookup, args, (m, next) => Complains(lookup, s, m, next),
                  (m, next) => Complains(lookup, t, m, next));
  }

  /** After the loop exactly those options are set that were set before or that some argument gives, and the loop has
      added errors exactly when some argument is faulty. */
  lemma {:induction false} LineEffect<V>(lookup: Lookup, s: State<V>, args: seq<string>, n: string)
    ensures var t := ParseArgs(lookup, s, args);
            && (HasOpt(t, n) <==> HasOpt(s, n) || Given(lookup, s, args, n))
            && (t.errors == s.errors <==> !Faulted(lookup, s, args))
            && SameKinds(s, t) && s.errors <= t.errors
    decreases |args|
  {
    if args != [] {
      var t := ParseOne(lookup, s, args[0], NextOf(args, 0)).0;
      var rest := Behind(ValueNames(s.options), lookup, args);
      FirstThenRest(lookup, s, args);
      LineEffect(lookup, t, rest, n);
      LineStep(lookup, s, args, ParseArgs(lookup, t, rest), n);
    }
  }

  /** From the effect of the rest of the line to that of the whole line. */
  lemma LineStep<V>(lookup: Lookup, s: State<V>, args: seq<string>, r: State<V>, n: string)
    requires args != []
    requires var t := ParseOne(lookup, s, args[0], NextOf(args, 0)).0;
             var rest := Behind(ValueNames(s.options), lookup, args);
             && (HasOpt(r, n) <==> HasOpt(t, n) || Given(lookup, t, rest, n))
             && (r.errors == t.errors <==> !Faulted(lookup, t, rest))
             && SameKinds(t, r) && t.errors <= r.errors
    ensures HasOpt(r, n) <==> HasOpt(s, n) || Given(lookup, s, args, n)
    ensures r.errors == s.errors <==> !Faulted(lookup, s, args)
    ensures SameKinds(s, r) && s.errors <= r.errors
  {
    var t, rest := ParseOne(lookup, s, args[0], NextOf(args, 0)).0, Behind(ValueNames(s.options), lookup, args);
    OneArgument(lookup, s, args[0], NextOf(args, 0), n);
    KindsChain(s, t, r);
    LinesAgree(lookup, s, t, rest, n);
    LineSplit(lookup, s, args, n);
    Chain(s.errors, t.errors, r.errors);
  }

  lemma KindsChain<V>(s: State<V>, t: State<V>, r: State<V>)
    requires SameKinds(s, t) && SameKinds(t, r)
    ensures SameKinds(s, r)
  {
  }

  lemma FirstThenRest<V>(lookup: Lookup, s: State<V>, args: seq<string>)
    requires args != []
    ensures var rest := Behind(ValueNames(s.options), lookup, args);
            ParseArgs(lookup, s, args)
            == ParseArgs(lookup, ParseOne(lookup, s, args[0], NextOf(args, 0)).0, rest)
    ensures |Behind(ValueNames(s.options), lookup, args)| < |args|
  {
  }

  lemma Chain<T>(a: seq<T>, b: seq<T>, c: seq<T>)
    requires a <= b <= c
    ensures a <= c && (c == a <==> b == a && c == b)
  {
  }

  lemma LineSplit<V>(lookup: Lookup, s: State<V>, args: seq<string>, n: string)
    requires args != []
    ensures var rest := Behind(ValueNames(s.options), lookup, args);
            && (Given(lookup, s, args, n) <==>
                Gives(lookup, s, args[0], NextOf(args, 0), n) || Given(lookup, s, rest, n))
            && (Faulted(lookup, s, args) <==>
                Complains(lookup, s, args[0], NextOf(args, 0)) || Faulted(lookup, s, rest))
  {
    var vn := ValueNames(s.options);
    SomewhereSplit(vn, lookup, args, (m, next) => Gives(lookup, s, m, next, n));
    SomewhereSplit(vn, lookup, args, (m, next) => Complains(lookup, s, m, next));
  }

  /** In particular: at any place where no option waits, an argument that gives an option sets it, whatever follows. */
  lemma GivenIsSet<V>(lookup: Lookup, s: State<V>, a: seq<string>, m: string, b: seq<string>, n: string)
    requires Aligned(ValueNames(s.options), lookup, a) && Gives(lookup, s, m, NextOf([m] + b, 0), n)
    ensures HasOpt(ParseArgs(lookup, s, a + ([m] + b)), n)
  {
    var line := a + ([m] + b);
    var p := (m, next) => Gives(lookup, s, m, next, n);
    assert line[..|a|] == a && line[|a|] == m && NextOf(line, |a|) == NextOf([m] + b, 0);
    assert Reads(ValueNames(s.options), lookup, line, |a|) && p(line[|a|], NextOf(line, |a|));
    assert Given(lookup, s, line, n);
    LineEffect(lookup, s, line, n);
  }

  /** A flag by its long name; a value option in either long form. */
  lemma LongNamesSet<V>(lookup: Lookup, s: State<V>, a: seq<string>, n: string, v: string, b: seq<string>)
    requires Aligned(ValueNames(s.options), lookup, a) && '=' !in n
    ensures IsFlag(s, n) ==> HasOpt(ParseArgs(lookup, s, a + ([Separate(n)] + b)), n)
    ensures !Refuses(s, n, v) ==> HasOpt(ParseArgs(lookup, s, a + ([Joined(n, v)] + b)), n)
                                  && HasOpt(ParseArgs(lookup, s, a + ([Separate(n)] + ([v] + b))), n)
  {
    if IsFlag(s, n) { GivenIsSet(lookup, s, a, Separate(n), b, n); }
    if !Refuses(s, n, v) {
      assert GivesValue(lookup, s, Joined(n, v), NextOf([Joined(n, v)] + b, 0), n, v);
      GivenIsSet(lookup, s, a, Joined(n, v), b, n);
      assert GivesValue(lookup, s, Separate(n), NextOf([Separate(n)] + ([v] + b), 0), n, v);
      GivenIsSet(lookup, s, a, Separate(n), [v] + b, n);
    }
  }

  // ---------------------------------------------------------------- values

  /** An argument that gives n a value leaves that value in n, and any other leaves a value option as it is. */
  lemma OneValue<V>(lookup: Lookup, s: State<V>, m: string, next: Option<string>, n: string)
    requires n in s.options && s.options[n].Valued?
    ensures var o := ParseOne(lookup, s, m, next).0.options;
            && n in o && o[n].Valued?
            && (forall v :: GivesValue(lookup, s, m, next, n, v) ==> o[n].actual == s.options[n].reader(v).value)
            && (!Gives(lookup, s, m, next, n) ==> o[n] == s.options[n])
  {
    if IsLong(m) {
      if '=' in m[2..] { JoinedValue(lookup, s, m, next, n); } else { SeparateValue(lookup, s, m, next, n); }
    } else {
      NoLongForm(m, n);
      if IsShort(m) && |m| > 1 { ClusterValue(lookup, s, m, next, n); }
    }
  }

  lemma JoinedValue<V>(lookup: Lookup, s: State<V>, m: string, next: Option<string>, n: string)
    requires n in s.options && s.options[n].Valued? && IsLong(m) && '=' in m[2..]
    ensures var o := ParseOne(lookup, s, m, next).0.options;
            && n in o && o[n].Valued?
            && (forall v :: GivesValue(lookup, s, m, next, n, v) ==> o[n].actual == s.options[n].reader(v).value)
            && (!Gives(lookup, s, m, next, n) ==> o[n] == s.options[n])
  {
    JoinedUnique(m);
    NotSeparate(m, n);
    var p := IndexOf(m[2..], '=');
    var k, v := m[2..][..p], m[2..][p + 1..];
    assert ParseOne(lookup, s, m, next).0 == SetOptionValue(s, k, v);
    assert n == k && s.options[n].reader(v).Some? ==> GivesValue(lookup, s, m, next, n, v);
  }

  lemma SeparateValue<V>(lookup: Lookup, s: State<V>, m: string, next: Option<string>, n: string)
    requires n in s.options && s.options[n].Valued? && IsLong(m) && '=' !in m[2..]
    ensures var o := ParseOne(lookup, s, m, next).0.options;
            && n in o && o[n].Valued?
            && (forall v :: GivesValue(lookup, s, m, next, n, v) ==> o[n].actual == s.options[n].reader(v).value)
            && (!Gives(lookup, s, m, next, n) ==> o[n] == s.options[n])
  {
    forall w | m == Joined(n, w) ensures false { JoinedIsLong(n, w); }
    var k := m[2..];
    assert m == Separate(k) && IndexOf(k, '=') == |k|;
    assert m == Separate(n) ==> n == k by { if m == Separate(n) { assert Separate(n)[2..] == n; } }
    if next.Some? { assert GivesValue(lookup, s, m, next, k, next.value) <==> !Refuses(s, k, next.value); }
  }

  lemma ClusterValue<V>(lookup: Lookup, s: State<V>, m: string, next: Option<string>, n: string)
    requires n in s.options && s.options[n].Valued? && IsShort(m) && |m| > 1
    ensures var o := ParseOne(lookup, s, m, next).0.options;
            && n in o && o[n].Valued?
            && (forall v :: GivesValue(lookup, s, m, next, n, v) ==> o[n].actual == s.options[n].reader(v).value)
            && (!Gives(lookup, s, m, next, n) ==> o[n] == s.options[n])
  {
    var front, last := m[1..|m| - 1], m[|m| - 1];
    ShortsSpareValue(lookup, s, front);
    ShortsKeepKinds(lookup, s, front);
    NotLong(m, n);
    if next.Some? {
      assert LastNames(lookup, m, n) && s.options[n].reader(next.value).Some? ==>
          GivesValue(lookup, s, m, next, n, next.value);
    }
  }

  lemma {:induction false} ValueStays<V>(lookup: Lookup, s: State<V>, args: seq<string>, n: string)
    requires n in s.options && s.options[n].Valued? && !Given(lookup, s, args, n)
    ensures var o := ParseArgs(lookup, s, args).options; n in o && o[n] == s.options[n]
    decreases |args|
  {
    if args != [] {
      var vn := ValueNames(s.options);
      var (t, used) := ParseOne(lookup, s, args[0], NextOf(args, 0));
      LineSplit(lookup, s, args, n);
      OneValue(lookup, s, args[0], NextOf(args, 0), n);
      OneKeepsKinds(lookup, s, args[0], NextOf(args, 0));
      LinesAgree(lookup, s, t, Behind(vn, lookup, args), n);
      ValueStays(lookup, t, Behind(vn, lookup, args), n);
    }
  }

  /** A value option holds what the last argument to give it a value gives: m, behind any arguments a at whose end no
      option waits, and before arguments that do not give it one. */
  lemma LastValueCounts<V>(lookup: Lookup, s: State<V>, a: seq<string>, m: string, rest: seq<string>, n: string,
                           v: string)
    requires Aligned(ValueNames(s.options), lookup, a) && GivesValue(lookup, s, m, NextOf([m] + rest, 0), n, v)
    requires !Given(lookup, s, Behind(ValueNames(s.options), lookup, [m] + rest), n)
    ensures var o := ParseArgs(lookup, s, a + ([m] + rest)).options;
            n in o && o[n].Valued? && o[n].has && o[n].actual == s.options[n].reader(v).value
  {
    var line := [m] + rest;
    var vn := ValueNames(s.options);
    ParseArgsSplit(lookup, s, a, line);
    var t := ParseArgs(lookup, s, a);
    LineEffect(lookup, s, a, n);
    LinesAgree(lookup, s, t, Behind(vn, lookup, line), n);
    KindsAgree(lookup, s, t, m, NextOf(line, 0), n);
    assert GivesValue(lookup, t, m, NextOf(line, 0), n, v);
    LastValueFrom(lookup, t, m, rest, n, v);
  }

  lemma LastValueFrom<V>(lookup: Lookup, t: State<V>, m: string, rest: seq<string>, n: string, v: string)
    requires GivesValue(lookup, t, m, NextOf([m] + rest, 0), n, v)
    requires !Given(lookup, t, Behind(ValueNames(t.options), lookup, [m] + rest), n)
    ensures var o := ParseArgs(lookup, t, [m] + rest).options;
            n in o && o[n].Valued? && o[n].has && o[n].actual == t.options[n].reader(v).value
  {
    var line := [m] + rest;
    var vn := ValueNames(t.options);
    var (u, used) := ParseOne(lookup, t, m, NextOf(line, 0));
    OneValue(lookup, t, m, NextOf(line, 0), n);
    OneArgument(lookup, t, m, NextOf(line, 0), n);
    LinesAgree(lookup, t, u, Behind(vn, lookup, line), n);
    ValueStays(lookup, u, Behind(vn, lookup, line), n);
    assert line[0] == m;
  }

  // ---------------------------------------------------------------- the rest list

  predicate Dashed(m: string) {
    m != "" && m[0] == '-'
  }

  /** The arguments that are read as such and do not begin with '-'. */
  function PlainOnes(valueNames: set<string>, lookup: Lookup, args: seq<string>): seq<string>
    decreases |args|
  {
    if args == [] then []
    else (if Dashed(args[0]) then [] else [args[0]]) + PlainOnes(valueNames, lookup, Behind(valueNames, lookup, args))
  }

  /** The rest list gains exactly those, in order. */
  lemma {:induction false} RestExactly<V>(lookup: Lookup, s: State<V>, args: seq<string>)
    ensures ParseArgs(lookup, s, args).others == s.others + PlainOnes(ValueNames(s.options), lookup, args)
    decreases |args|
  {
    if args == [] {
      assert s.others + [] == s.others;
    } else {
      var t := ParseOne(lookup, s, args[0], NextOf(args, 0)).0;
      var rest := Behind(ValueNames(s.options), lookup, args);
      FirstThenRest(lookup, s, args);
      RestExactly(lookup, t, rest);
      OneRest(lookup, s, args[0], NextOf(args, 0));
      PlainJoins(ValueNames(s.options), lookup, args, s.others, t.others, ParseArgs(lookup, t, rest).others);
    }
  }

  lemma PlainJoins(valueNames: set<string>, lookup: Lookup, args: seq<string>,
                   before: seq<string>, between: seq<string>, after: seq<string>)
    requires args != [] && between == before + if Dashed(args[0]) then [] else [args[0]]
    requires after == between + PlainOnes(valueNames, lookup, Behind(valueNames, lookup, args))
    ensures after == before + PlainOnes(valueNames, lookup, args)
  {
    var plain := if Dashed(args[0]) then [] else [args[0]];
    var more := PlainOnes(valueNames, lookup, Behind(valueNames, lookup, args));
    assert PlainOnes(valueNames, lookup, args) == plain + more;
    assert (before + plain) + more == before + (plain + more);
  }

  lemma OneRest<V>(lookup: Lookup, s: State<V>, m: string, next: Option<string>)
    ensures ParseOne(lookup, s, m, next).0.others == s.others + if Dashed(m) then [] else [m]
    ensures ValueNames(ParseOne(lookup, s, m, next).0.options) == ValueNames(s.options)
  {
    assert IsLong(m) || IsShort(m) <==> Dashed(m);
    assert s.others + [] == s.others;
  }

  /** So a plain argument at a place where no option waits is in the list, behind those before it. */
  lemma PlainIsKept<V>(lookup: Lookup, s: State<V>, a: seq<string>, m: string, b: seq<string>)
    requires Aligned(ValueNames(s.options), lookup, a) && !Dashed(m)
    ensures ParseArgs(lookup, s, a).others + [m] <= ParseArgs(lookup, s, a + ([m] + b)).others
  {
    var t, line := ParseArgs(lookup, s, a), [m] + b;
    ParseArgsSplit(lookup, s, a, line);
    RestExactly(lookup, t, line);
    assert line[0] == m;
  }

  // ---------------------------------------------------------------- needed options and success

  predicate IsMissing<V>(o: Opt<V>) {
    o.Valued? && o.need && !o.has
  }

  /** The final loop reports exactly the needed options that are not set. */
  lemma {:induction false} MissingExactly<V>(names: seq<string>, options: map<string, Opt<V>>, e: string)
    requires forall n :: n in names ==> n in options
    ensures e in MissingErrors(names, options) <==>
              exists n :: n in names && IsMissing(options[n]) && e == "need option: --" + n
    decreases |names|
  {
    if names != [] {
      MissingExactly(names[1..], options, e);
      assert names == [names[0]] + names[1..];
    }
  }

  lemma {:induction false} NoneMissing<V>(names: seq<string>, options: map<string, Opt<V>>)
    requires forall n :: n in names ==> n in options
    ensures MissingErrors(names, options) == []
       <==> forall n :: n in names && options[n].Valued? && options[n].need ==> options[n].has
    decreases |names|
  {
    if names != [] {
      NoneMissing(names[1..], options);
      assert names == [names[0]] + names[1..];
    }
  }

  /** A parse succeeds if and only if no two options share a short name, no argument is faulty, and every needed
      option was set before or is given by some argument. */
  lemma SucceedsExactly<V>(names: seq<string>, options: map<string, Opt<V>>, argv: seq<string>)
    requires (forall n :: n in names ==> n in options) && argv != []
    ensures Parse(names, options, argv).errors == [] <==>
              && BuildLookup(names, options, map[]).Found?
              && var lookup, s := BuildLookup(names, options, map[]).lookup, State(options, [], []);
                 && !Faulted(lookup, s, argv[1..])
                 && forall n :: n in names && options[n].Valued? && options[n].need ==>
                                options[n].has || Given(lookup, s, argv[1..], n)
  {
    match BuildLookup(names, options, map[]) {
      case Ambiguous(_) =>
      case Found(lookup) =>
        var s := State(options, [], []);
        var t := ParseArgs(lookup, s, argv[1..]);
        LineEffect(lookup, s, argv[1..], "");
        NoneMissing(names, t.options);
        forall n | n in names ensures HasOpt(t, n) <==> options[n].has || Given(lookup, s, argv[1..], n) {
          LineEffect(lookup, s, argv[1..], n);
        }
    }
  }

  // ---------------------------------------------------------------- short names

  predicate HasShort<V>(n: string, o: Opt<V>) {
    n != "" && o.short != '\0'
  }

  /** No two of the options share a short name. */
  predicate ShortsDiffer<V>(names: seq<string>, options: map<string, Opt<V>>)
    requires forall n :: n in names ==> n in options
  {
    forall m, n :: m in names && n in names && m != n && HasShort(m, options[m]) && HasShort(n, options[n]) ==>
                     options[m].short != options[n].short
  }

  lemma {:induction false} LookupFrom<V>(names: seq<string>, options: map<string, Opt<V>>, lookup: Lookup)
    requires (forall n :: n in names ==> n in options) && Distinct(names)
    ensures var r := BuildLookup(names, options, lookup);
            && (r.Found? <==> ShortsDiffer(names, options)
                              && forall n :: n in names && HasShort(n, options[n]) ==> options[n].short !in lookup)
            && (r.Found? ==>
                  && (forall c :: c in lookup ==> c in r.lookup && r.lookup[c] == lookup[c])
                  && (forall n :: n in names && HasShort(n, options[n]) ==>
                                    options[n].short in r.lookup && r.lookup[options[n].short] == n))
    decreases |names|
  {
    if names != [] {
      var n, rest := names[0], names[1..];
      assert names == [n] + rest && n !in rest;
      var c := options[n].short;
      if !HasShort(n, options[n]) {
        LookupFrom(rest, options, lookup);
      } else if c !in lookup {
        LookupFrom(rest, options, lookup[c := n]);
      }
    }
  }

  /** The table of short names is complete, and is refused exactly when two options share a short name. */
  lemma LookupExactly<V>(names: seq<string>, options: map<string, Opt<V>>)
    requires (forall n :: n in names ==> n in options) && Distinct(names)
    ensures var r := BuildLookup(names, options, map[]);
            && (r.Found? <==> ShortsDiffer(names, options))
            && (r.Found? ==> forall n :: n in names && HasShort(n, options[n]) ==>
                  options[n].short in r.lookup && r.lookup[options[n].short] == n)
  {
    LookupFrom(names, options, map[]);
  }

  // ---------------------------------------------------------------- what is said

  /** The message about the first fault stands right behind the errors so far. */
  lemma Said<V>(lookup: Lookup, s: State<V>, a: seq<string>, m: string, b: seq<string>, e: string)
    requires Aligned(ValueNames(s.options), lookup, a)
    requires var t := ParseArgs(lookup, s, a);
             ParseOne(lookup, t, m, NextOf([m] + b, 0)).0.errors == t.errors + [e]
    ensures var k := |ParseArgs(lookup, s, a).errors|;
            var errors := ParseArgs(lookup, s, a + ([m] + b)).errors;
            k < |errors| && errors[k] == e
  {
    var line := [m] + b;
    var t := ParseArgs(lookup, s, a);
    ParseArgsSplit(lookup, s, a, line);
    FirstThenRest(lookup, t, line);
    assert line[0] == m;
    var rest := Behind(ValueNames(t.options), lookup, line);
    ParsingOnlyAddsErrors(lookup, ParseOne(lookup, t, m, NextOf(line, 0)).0, rest);
  }

  /** A long option that does not exist, in either form. */
  lemma SaidUndefined<V>(lookup: Lookup, s: State<V>, a: seq<string>, n: string, v: string, b: seq<string>)
    requires Aligned(ValueNames(s.options), lookup, a) && n !in s.options && '=' !in n
    ensures var k := |ParseArgs(lookup, s, a).errors|;
            && Says(ParseArgs(lookup, s, a + ([Separate(n)] + b)), k, "undefined option: --" + n)
            && Says(ParseArgs(lookup, s, a + ([Joined(n, v)] + b)), k, "undefined option: --" + n)
  {
    var t := ParseArgs(lookup, s, a);
    JoinedIsLong(n, v);
    JoinedTaken(Joined(n, v), n, v);
    SeparateTaken(n);
    Said(lookup, s, a, Separate(n), b, "undefined option: --" + n);
    Said(lookup, s, a, Joined(n, v), b, "undefined option: --" + n);
  }

  lemma SeparateTaken(n: string)
    requires '=' !in n
    ensures IsLong(Separate(n)) && Separate(n)[2..] == n && IndexOf(n, '=') == |n|
  {
    assert Separate(n)[2..] == n;
  }

  ghost predicate Says<V>(t: State<V>, k: nat, e: string) {
    k < |t.errors| && t.errors[k] == e
  }

  /** A value that is refused, and a value option that is the last argument. */
  lemma SaidInvalid<V>(lookup: Lookup, s: State<V>, a: seq<string>, n: string, v: string, b: seq<string>)
    requires Aligned(ValueNames(s.options), lookup, a) && n in s.options && '=' !in n && Refuses(s, n, v)
    ensures Says(ParseArgs(lookup, s, a + ([Joined(n, v)] + b)), |ParseArgs(lookup, s, a).errors|,
                 "option value is invalid: --" + n + "=" + v)
  {
    LineEffect(lookup, s, a, n);
    JoinedIsLong(n, v);
    JoinedTaken(Joined(n, v), n, v);
    Said(lookup, s, a, Joined(n, v), b, "option value is invalid: --" + n + "=" + v);
  }

  lemma SaidNeedsValue<V>(lookup: Lookup, s: State<V>, a: seq<string>, n: string)
    requires Aligned(ValueNames(s.options), lookup, a) && n in s.options && s.options[n].Valued? && '=' !in n
    ensures Says(ParseArgs(lookup, s, a + ([Separate(n)] + [])), |ParseArgs(lookup, s, a).errors|,
                 "option needs value: --" + n)
  {
    LineEffect(lookup, s, a, n);
    SeparateTaken(n);
    Said(lookup, s, a, Separate(n), [], "option needs value: --" + n);
  }

  /** A letter that is no short name. */
  lemma SaidUndefinedShort<V>(lookup: Lookup, s: State<V>, a: seq<string>, c: char, b: seq<string>)
    requires Aligned(ValueNames(s.options), lookup, a) && c !in lookup && c != '-'
    ensures Says(ParseArgs(lookup, s, a + (["-" + [c]] + b)), |ParseArgs(lookup, s, a).errors|,
                 "undefined short option: -" + [c])
  {
    var t, m := ParseArgs(lookup, s, a), "-" + [c];
    assert m[1..|m| - 1] == [] && m[|m| - 1] == c;
    assert SetShorts(lookup, t, []) == t;
    Said(lookup, s, a, m, b, "undefined short option: -" + [c]);
  }

  /** No argument at all, not even a program name, and options that share a short name, are refused with one message. */
  lemma SaidAtOnce<V>(names: seq<string>, options: map<string, Opt<V>>, argv: seq<string>)
    requires forall n :: n in names ==> n in options
    ensures Parse(names, options, []).errors == ["argument number must be longer than 0"]
    ensures argv != [] && BuildLookup(names, options, map[]).Ambiguous? ==>
              Parse(names, options, argv).errors
              == ["short option '" + [BuildLookup(names, options, map[]).c] + "' is ambiguous"]
  {
  }
}
