/** The option parser object of opt/src/opt.c: the token array is permuted in place. */
module OptParser {

  import opened Opt
  import opened Wrappers

  lemma {:induction false} EqualsBeyond(option: string, j: nat)
    requires j <= |option| && '=' !in option[..j]
    ensures j <= EqualsAt(option)
  {
    if j > 0 {
      assert option[0] == option[..j][0] && option[1..][..j - 1] == option[..j][1..];
      EqualsBeyond(option[1..], j - 1);
    }
  }

  lemma NameDiffers(n: string, option: string, j: nat)
    requires j < |option| && j < |n| && option[..j] == n[..j] && '=' !in option[..j] && option[j] != '='
    requires option[j] != n[j]
    ensures n != option[..EqualsAt(option)]
  {
    assert option[..j + 1] == option[..j] + [option[j]];
    EqualsBeyond(option, j + 1);
    var i := EqualsAt(option);
    assert option[..i][j] == option[j];
  }

  lemma NameEnds(n: string, option: string, j: nat)
    requires j <= |option| && j <= |n| && option[..j] == n[..j] && '=' !in option[..j]
    requires j == |option| || j == |n| || option[j] == '='
    ensures n == option[..EqualsAt(option)] <==> j == |n| && (j == |option| || option[j] == '=')
  {
    EqualsBeyond(option, j);
    var i := EqualsAt(option);
    assert j < i ==> option[..i][j] == option[j];
    assert n[..|n|] == n;
  }

  method IsMatch(longname: Option<string>, option: string) returns (b: bool)
    ensures b <==> Matches(longname, option)
  {
    if longname.None? {
      return false;
    }
    var n := longname.value;
    var j := 0;
    while j < |option| && j < |n| && option[j] != '='
      invariant 0 <= j <= |option| && j <= |n| && option[..j] == n[..j] && '=' !in option[..j]
    {
      if option[j] != n[j] {
        NameDiffers(n, option, j);
        return false;
      }
      j := j + 1;
    }
    NameEnds(n, option, j);
    b := j == |n| && (j == |option| || option[j] == '=');
  }

  function Pulled(argv: seq<string>, from: nat, to: nat): seq<string>
    requires to <= from < |argv|
  {
    argv[..to] + [argv[from]] + argv[to..from] + argv[from + 1..]
  }

  lemma PulledIs(argv: seq<string>, after: seq<string>, from: nat, to: nat)
    requires to <= from < |argv| == |after| && after[to] == argv[from]
    requires forall k :: to < k <= from ==> after[k] == argv[k - 1]
    requires forall k :: 0 <= k < to || from < k < |argv| ==> after[k] == argv[k]
    ensures after == Pulled(argv, from, to)
  {
    assert after[to + 1..from + 1] == argv[to..from];
    assert after == after[..to] + [after[to]] + after[to + 1..from + 1] + after[from + 1..];
  }

  lemma MovedNone(argv: seq<string>, from: nat, to: nat)
    requires to <= from <= |argv|
    ensures Moved(argv, from, to, 0) == argv
  {}

  lemma MovedOneMore(argv: seq<string>, from: nat, to: nat, k: nat)
    requires to <= from && from + k < |argv|
    ensures Pulled(Moved(argv, from, to, k), from + k, to + k) == Moved(argv, from, to, k + 1)
  {}

  /** The last descriptor with this short name. */
  method FindShort(defs: Table, c: char) returns (argtype: Option<ArgType>)
    ensures argtype == LastShort(defs, c)
  {
    argtype := None;
    var i := 0;
    while i < |defs|
      invariant 0 <= i <= |defs| && argtype == LastShort(defs[..i], c)
    {
      assert defs[..i + 1][..i] == defs[..i];
      if defs[i].shortname == c as int {
        argtype := Some(defs[i].argtype);
      }
      i := i + 1;
    }
    assert defs[..|defs|] == defs;
  }

  /** The first descriptor whose long name matches. */
  method FindLong(defs: Table, option: string) returns (i: nat)
    ensures i == FirstLong(defs, option)
  {
    i := 0;
    while i < |defs|
      invariant 0 <= i <= |defs| && forall k :: 0 <= k < i ==> !Matches(defs[k].longname, option)
    {
      var found := IsMatch(defs[i].longname, option);
      if found {
        return;
      }
      i := i + 1;
    }
  }

  lemma MovedHere(argv: seq<string>, at: nat, count: nat)
    requires at + count <= |argv|
    ensures Moved(argv, at, at, count) == argv
  {}

  lemma {:induction false} ScanIs(T: seq<string>, i: nat)
    requires i <= |T| && (forall k :: 0 <= k < i ==> IsPositional(T[k])) && (i == |T| || !IsPositional(T[i]))
    ensures Scan(T) == i
  {
    if i > 0 {
      ScanIs(T[1..], i - 1);
    }
  }

  /** The scan of a call stops where a loop over positionals does. */
  lemma StopsAt(s: State, i: nat)
    requires s.Valid() && s.optind <= i <= |s.argv| && (forall k :: s.optind <= k < i ==> IsPositional(s.argv[k]))
    requires i == |s.argv| || !IsPositional(s.argv[i])
    ensures s.NextAt() == i
    ensures i < |s.argv| ==> (IsShort(s.argv[i]) ==> s.subind + 1 < |s.argv[i]|) && (!IsShort(s.argv[i]) ==> s.subind == 0)
  {
    var T := s.argv[s.optind..];
    ScanIs(T, i - s.optind);
  }

  lemma StopsBeyond(s: State, i: nat)
    requires s.Valid() && s.optind == i < |s.argv| && IsPositional(s.argv[i])
    ensures s.NextAt() > i
  {
    var T := s.argv[s.optind..];
    assert T[0] == s.argv[i];
  }

  lemma NextIsDone(defs: seq<Def>, permute: bool, s: State)
    requires s.Valid() && (s.NextAt() == |s.argv| || (!permute && s.NextAt() > s.optind))
    ensures Next(defs, permute, s) == (s, None)
  {}

  lemma ShortHead(defs: Table, argv: seq<string>, at: nat, sub: nat)
    requires at < |argv| && IsShort(argv[at]) && sub + 1 < |argv[at]|
    ensures ParseHead(defs, argv[at..], sub) ==
            ParseShort(defs, argv[at], sub, if at + 1 < |argv| then Some(argv[at + 1]) else None)
  {}

  class Parser {
    const argv: array<string>
    var permute: bool
    var optind: nat
    var subind: nat
    var optarg: Option<string>
    var optopt: int

    ghost function Abstract(): State
      reads this, argv
    {
      State(argv[..], optind, subind)
    }

    ghost predicate Valid()
      reads this, argv
    {
      Abstract().Valid()
    }

    /** The vector has an implicit terminator at its length. */
    constructor (tokens: array<string>)
      ensures argv == tokens && permute && Valid()
      ensures optind == (if tokens.Length > 0 then 1 else 0) && subind == 0 && optarg == None && optopt == 0
    {
      optarg := None;
      argv := tokens;
      permute := true;
      optind := if tokens.Length > 0 then 1 else 0;
      optopt := 0;
      subind := 0;
    }

    /** Moves one token to the front, behind those that come before it. */
    method Pull(from: nat, to: nat)
      requires to <= from < argv.Length
      modifies argv
      ensures argv[..] == Pulled(old(argv[..]), from, to)
    {
      hide Pulled;
      ghost var was := argv[..];
      var tmp := argv[from];
      var j := from;
      while j > to
        invariant to <= j <= from
        invariant forall k :: j < k <= from ==> argv[k] == was[k - 1]
        invariant forall k :: 0 <= k <= j || from < k < argv.Length ==> argv[k] == was[k]
      {
        argv[j] := argv[j - 1];
        j := j - 1;
      }
      argv[to] := tmp;
      PulledIs(was, argv[..], from, to);
    }

    /** Rotates by moving one token after another to the front. */
    method Permute(from: nat, to: nat, count: nat)
      requires to <= from && from + count <= argv.Length
      modifies argv
      ensures argv[..] == Moved(old(argv[..]), from, to, count)
    {
      hide Moved, Pulled;
      ghost var was := argv[..];
      MovedNone(was, from, to);
      var k := 0;
      while k < count
        invariant 0 <= k <= count && argv[..] == Moved(was, from, to, k)
      {
        MovedOneMore(was, from, to, k);
        Pull(from + k, to + k);
        k := k + 1;
      }
    }

    /** Parses the next option of the cluster at `optind`; ends when there is none. */
    method ParseShortAt(defs: Table) returns (error: Error, id: Option<int>)
      requires optind <= argv.Length
      requires optind < argv.Length && IsShort(argv[optind]) ==> subind + 1 < |argv[optind]|
      modifies `optind, `subind, `optarg, `optopt
      ensures if old(optind) < argv.Length && IsShort(argv[old(optind)]) then
                var p := ParseHead(defs, argv[old(optind)..], old(subind));
                p.event == Event(error, id, optopt, optarg) && optind == old(optind) + p.consumed && subind == p.sub
              else
                && error == Done && id == None && optopt == 0 && optarg == None && subind == old(subind)
                && optind == old(optind) + if old(optind) < argv.Length && IsDashDash(argv[old(optind)]) then 1 else 0
      ensures old(optind) < argv.Length && IsShort(argv[old(optind)]) ==>
                optind >= old(optind)
                && HeadMeans(defs, argv[old(optind)..], old(subind),
                             Parsed(Event(error, id, optopt, optarg), optind - old(optind), subind))
    {
      hide LastShort, ParseHead, HeadMeans;
      optopt, optarg, id := 0, None, None;
      if optind == argv.Length {
        return Done, None;
      }
      var token := argv[optind];
      if IsShort(token) {
        HeadAnswers(defs, argv[optind..], subind);
      }
      if IsDashDash(token) {
        optind := optind + 1;
        return Done, None;
      }
      if !IsShort(token) {
        return Done, None;
      }
      var at := subind + 1;
      var c := token[at];
      optopt := c as int;
      var next := if optind + 1 < argv.Length then Some(argv[optind + 1]) else None;
      ShortHead(defs, argv[..], optind, subind);
      var argtype: Option<ArgType> := None;
      if 33 <= c as int < 127 {
        argtype := FindShort(defs, c);
      }
      if argtype.Some? {
        id := Some(c as int);
      }
      var rest := token[at + 1..];
      match argtype
      case Some(NoArg) =>
        if rest != "" {
          subind := subind + 1;
        } else {
          subind := 0;
          optind := optind + 1;
        }
        error := NoError;
      case Some(Required) =>
        subind := 0;
        optind := optind + 1;
        if rest != "" {
          optarg := Some(rest);
        } else if next.Some? {
          optarg := next;
          optind := optind + 1;
        } else {
          return Missing, id;
        }
        error := NoError;
      case Some(Optional) =>
        subind := 0;
        optind := optind + 1;
        optarg := if rest != "" then Some(rest) else None;
        error := NoError;
      case None =>
        subind := 0;
        optind := optind + 1;
        error := Invalid;
    }

    /** Parses the long option at `optind`. */
    method ParseLongAt(defs: Table) returns (error: Error, id: Option<int>)
      requires optind < argv.Length && IsLong(argv[optind]) && subind == 0
      modifies `optind, `optarg, `optopt
      ensures var p := ParseHead(defs, argv[old(optind)..], 0);
              p.event == Event(error, id, optopt, optarg) && optind == old(optind) + p.consumed && subind == p.sub
      ensures optind >= old(optind)
              && HeadMeans(defs, argv[old(optind)..], 0,
                           Parsed(Event(error, id, optopt, optarg), optind - old(optind), subind))
    {
      hide HeadMeans;
      HeadAnswers(defs, argv[optind..], 0);
      optopt, optarg, id := 0, None, None;
      var option := argv[optind][2..];
      assert Following(argv[optind..]) == if optind + 1 < argv.Length then Some(argv[optind + 1]) else None;
      optind := optind + 1;
      var i := FindLong(defs, option);
      if i == |defs| {
        return Invalid, None;
      }
      optopt := defs[i].shortname;
      id := Some(defs[i].shortname);
      var eq := EqualsAt(option);
      var hasValue := eq < |option|;
      if defs[i].argtype == NoArg && hasValue {
        return TooMany, id;
      }
      if hasValue {
        optarg := Some(option[eq + 1..]);
      } else if defs[i].argtype == Required {
        if optind == argv.Length {
          return Missing, id;
        }
        optarg := Some(argv[optind]);
        optind := optind + 1;
      }
      error := NoError;
    }

    /** The scan met "--" at `i`. */
    method PassDashDash(defs: Table, i: nat)
      requires Valid() && i == Abstract().NextAt() < argv.Length && IsDashDash(argv[i]) && (permute || i == optind)
      modifies `optind, argv
      ensures Abstract() == Next(defs, permute, old(Abstract())).0 && Next(defs, permute, old(Abstract())).1 == None
    {
      hide Moved, ParseHead, Scan, HeadMeans;
      var target := optind;
      if i > target {
        Permute(i, target, 1);
      } else {
        MovedHere(argv[..], i, 1);
      }
      optind := target + 1;
    }

    /** The scan met an option at `i`. */
    method TakeOption(defs: Table, i: nat) returns (error: Error, id: Option<int>)
      requires Valid() && i == Abstract().NextAt() < argv.Length && !IsDashDash(argv[i]) && (permute || i == optind)
      requires !IsPositional(argv[i]) && (IsShort(argv[i]) ==> subind + 1 < |argv[i]|) && (IsLong(argv[i]) ==> subind == 0)
      modifies `optind, `subind, `optarg, `optopt, argv
      ensures Abstract() == Next(defs, permute, old(Abstract())).0
      ensures Next(defs, permute, old(Abstract())).1 == Some(Event(error, id, optopt, optarg))
    {
      hide Moved, ParseHead, Scan, HeadMeans;
      var target := optind;
      optind := i;
      if IsShort(argv[i]) {
        error, id := ParseShortAt(defs);
      } else {
        error, id := ParseLongAt(defs);
      }
      var consumed := optind - i;
      if i > target {
        Permute(i, target, consumed);
      } else {
        MovedHere(argv[..], i, consumed);
      }
      optind := target + consumed;
    }

    /** `ct_opt_next`. */
    method GetNext(defs: Table) returns (error: Error, id: Option<int>)
      requires Valid()
      modifies this`optind, this`subind, this`optarg, this`optopt, argv
      ensures Valid()
      ensures var (t, e) := Next(defs, permute, old(Abstract()));
              && Abstract() == t
              && (if e.Some? then e == Some(Event(error, id, optopt, optarg))
                  else error == Done && id == None && optarg == old(optarg) && optopt == old(optopt))
      ensures CallMeans(defs, permute, old(Abstract()), Abstract(),
                        if error == Done then None else Some(Event(error, id, optopt, optarg)))
    {
      hide Next, Scan, Moved, ParseHead, ClusterOpen, State.CharsLeft, CallMeans;
      ghost var s := Abstract();
      NextMeans(defs, permute, s);
      NextValid(defs, permute, s);
      var i := optind;
      while i < argv.Length
        invariant optind <= i <= argv.Length && (permute || i == optind)
        invariant forall k :: optind <= k < i ==> IsPositional(argv[k])
      {
        var arg := argv[i];
        if IsDashDash(arg) {
          StopsAt(s, i);
          PassDashDash(defs, i);
          return Done, None;
        }
        if !IsShort(arg) && !IsLong(arg) {
          if !permute {
            StopsBeyond(s, i);
            NextIsDone(defs, permute, s);
            optind := i;
            return Done, None;
          }
          i := i + 1;
          continue;
        }
        StopsAt(s, i);
        error, id := TakeOption(defs, i);
        return;
      }
      StopsAt(s, i);
      NextIsDone(defs, permute, s);
      return Done, None;
    }

    /** `ct_opt_arg`: the next token whatever it is, unless a cluster is open. */
    method TakeArg() returns (arg: Option<string>)
      requires Valid()
      modifies `optind
      ensures Valid()
      ensures if old(subind) == 0 && old(optind) < argv.Length then arg == Some(argv[old(optind)]) && optind == old(optind) + 1
              else arg == None && optind == old(optind)
    {
      if subind != 0 || optind == argv.Length {
        return None;
      }
      arg := Some(argv[optind]);
      optind := optind + 1;
    }
  }

  ghost function Prepend(events: seq<Event>, r: (State, seq<Event>)): (State, seq<Event>) {
    (r.0, events + r.1)
  }

  lemma RunFrom(defs: seq<Def>, permute: bool, s: State)
    requires s.Valid()
    ensures Run(defs, permute, s) == Prepend([], Run(defs, permute, s))
  {
    assert [] + Run(defs, permute, s).1 == Run(defs, permute, s).1;
  }

  lemma EventNotDone(defs: seq<Def>, permute: bool, t: State)
    requires t.Valid() && Next(defs, permute, t).1.Some?
    ensures Next(defs, permute, t).1.value.error != Done
  {
    hide ParseHead, Scan;
  }

  lemma RunOnce(defs: seq<Def>, permute: bool, t: State, events: seq<Event>)
    requires t.Valid()
    ensures var (u, e) := Next(defs, permute, t);
            && u.Valid() && (e.Some? ==> e.value.error != Done)
            && Prepend(events, Run(defs, permute, t)) ==
               (if e.None? then (u, events) else Prepend(events + [e.value], Run(defs, permute, u)))
  {
    hide Next, Scan, ClusterOpen;
    NextValid(defs, permute, t);
    var (u, e) := Next(defs, permute, t);
    if e.Some? {
      EventNotDone(defs, permute, t);
      assert events + ([e.value] + Run(defs, permute, u).1) == events + [e.value] + Run(defs, permute, u).1;
    } else {
      assert events + [] == events;
    }
  }

  /** Call after call, past errors too, until one is done. */
  method ParseAll(parser: Parser, defs: Table) returns (events: seq<Event>)
    requires parser.Valid()
    modifies parser, parser.argv
    ensures parser.Valid()
    ensures (parser.Abstract(), events) == Run(defs, old(parser.permute), old(parser.Abstract()))
    ensures old(parser.permute) ==> Arrives(defs, old(parser.Abstract()), parser.Abstract(), events)
  {
    hide Arrives, Next, Scan;
    ghost var s, permute := parser.Abstract(), parser.permute;
    events := [];
    RunArranges(defs, s);
    RunFrom(defs, permute, s);
    while true
      invariant parser.Valid() && parser.permute == permute
      invariant Run(defs, permute, s) == Prepend(events, Run(defs, permute, parser.Abstract()))
      decreases parser.argv.Length - parser.optind, parser.Abstract().CharsLeft()
    {
      ghost var t := parser.Abstract();
      NextValid(defs, permute, t);
      RunOnce(defs, permute, t, events);
      var error, id := parser.GetNext(defs);
      if error == Done {
        assert Next(defs, permute, t) == (parser.Abstract(), None);
        break;
      }
      events := events + [Event(error, id, parser.optopt, parser.optarg)];
    }
  }
}
