/** Command-line option parsing, opt/src/opt.c, on sequences of tokens. */
module Opt {

  import opened Wrappers

  datatype ArgType = NoArg | Required | Optional

  datatype Def = Def(longname: Option<string>, shortname: int, argtype: ArgType)

  predicate IsEnd(d: Def) {
    d.longname.None? && d.shortname == 0
  }

  /** A descriptor array up to its terminator. */
  type Table = s: seq<Def> | forall k :: 0 <= k < |s| ==> !IsEnd(s[k])

  datatype Error = NoError | Done | Invalid | Missing | TooMany

  /** What a call that finds an option reports: its result, `*out_id` if it is written, `optopt` and `optarg`. */
  datatype Event = Event(error: Error, id: Option<int>, opt: int, arg: Option<string>)

  predicate IsDashDash(a: string) {
    |a| == 2 && a[0] == '-' && a[1] == '-'
  }

  predicate IsShort(a: string) {
    |a| >= 2 && a[0] == '-' && a[1] != '-'
  }

  predicate IsLong(a: string) {
    |a| >= 3 && a[0] == '-' && a[1] == '-'
  }

  predicate IsPositional(a: string) {
    !IsDashDash(a) && !IsShort(a) && !IsLong(a)
  }

  // ---------- Descriptors ----------

  /** Among equal short names the last descriptor wins. */
  function LastShort(defs: seq<Def>, c: char): Option<ArgType> {
    if defs == [] then None
    else if defs[|defs| - 1].shortname == c as int then Some(defs[|defs| - 1].argtype)
    else LastShort(defs[..|defs| - 1], c)
  }

  function ShortType(defs: seq<Def>, c: char): Option<ArgType> {
    if 33 <= c as int < 127 then LastShort(defs, c) else None
  }

  function EqualsAt(option: string): (i: nat)
    ensures i <= |option| && '=' !in option[..i] && (i < |option| ==> option[i] == '=')
  {
    if option == "" || option[0] == '=' then 0 else 1 + EqualsAt(option[1..])
  }

  /** The option's name is what precedes an equals sign. */
  predicate Matches(longname: Option<string>, option: string) {
    longname.Some? && longname.value == option[..EqualsAt(option)]
  }

  /** Among matching long names the first descriptor wins. */
  function FirstLong(defs: seq<Def>, option: string): (i: nat)
    ensures i <= |defs| && (i < |defs| ==> Matches(defs[i].longname, option))
    ensures forall k :: 0 <= k < i ==> !Matches(defs[k].longname, option)
  {
    if defs == [] || Matches(defs[0].longname, option) then 0
    else
      var i := FirstLong(defs[1..], option);
      assert forall k :: 0 < k < 1 + i ==> defs[k] == defs[1..][k - 1];
      1 + i
  }

  // ---------- One option ----------

  /** The report, the tokens it took and the position left in an unfinished cluster. */
  datatype Parsed = Parsed(event: Event, consumed: nat, sub: nat)

  function Following(tokens: seq<string>): Option<string> {
    if |tokens| > 1 then Some(tokens[1]) else None
  }

  function ParseShort(defs: seq<Def>, cluster: string, sub: nat, next: Option<string>): (r: Parsed)
    requires sub + 1 < |cluster|
    ensures r.consumed <= 1 || (r.consumed == 2 && next.Some?)
    ensures if r.consumed == 0 then r.sub == sub + 1 && r.sub + 1 < |cluster| else r.sub == 0
    ensures r.event.error != Done
  {
    var c, rest := cluster[sub + 1], cluster[sub + 2..];
    var id := Some(c as int);
    match ShortType(defs, c)
    case None => Parsed(Event(Invalid, None, c as int, None), 1, 0)
    case Some(NoArg) =>
      if rest != "" then Parsed(Event(NoError, id, c as int, None), 0, sub + 1)
      else Parsed(Event(NoError, id, c as int, None), 1, 0)
    case Some(Required) =>
      if rest != "" then Parsed(Event(NoError, id, c as int, Some(rest)), 1, 0)
      else if next.Some? then Parsed(Event(NoError, id, c as int, next), 2, 0)
      else Parsed(Event(Missing, id, c as int, None), 1, 0)
    case Some(Optional) =>
      Parsed(Event(NoError, id, c as int, if rest != "" then Some(rest) else None), 1, 0)
  }

  function ParseLong(defs: seq<Def>, option: string, next: Option<string>): (r: Parsed)
    ensures r.consumed == 1 || (r.consumed == 2 && next.Some?)
    ensures r.sub == 0 && r.event.error != Done
  {
    var i, eq := FirstLong(defs, option), EqualsAt(option);
    if i == |defs| then Parsed(Event(Invalid, None, 0, None), 1, 0)
    else
      var d := defs[i];
      var id := Some(d.shortname);
      if eq < |option| then
        if d.argtype == NoArg then Parsed(Event(TooMany, id, d.shortname, None), 1, 0)
        else Parsed(Event(NoError, id, d.shortname, Some(option[eq + 1..])), 1, 0)
      else if d.argtype == Required then
        if next.Some? then Parsed(Event(NoError, id, d.shortname, next), 2, 0)
        else Parsed(Event(Missing, id, d.shortname, None), 1, 0)
      else Parsed(Event(NoError, id, d.shortname, None), 1, 0)
  }

  /** Parsing at the head of the tokens. */
  function ParseHead(defs: seq<Def>, tokens: seq<string>, sub: nat): (r: Parsed)
    requires tokens != [] && (IsShort(tokens[0]) || IsLong(tokens[0]))
    requires IsShort(tokens[0]) ==> sub + 1 < |tokens[0]|
    ensures r.consumed <= |tokens| && r.event.error != Done
    ensures r.consumed == 0 ==> IsShort(tokens[0]) && sub < r.sub && r.sub + 1 < |tokens[0]|
    ensures r.consumed > 0 ==> r.sub == 0
  {
    if IsShort(tokens[0]) then ParseShort(defs, tokens[0], sub, Following(tokens))
    else ParseLong(defs, tokens[0][2..], Following(tokens))
  }

  /** On an error the reported letter or short name is the offender's, 0 for a long option that no descriptor matches. */
  lemma ErrorNamesOption(defs: seq<Def>, tokens: seq<string>, sub: nat)
    requires tokens != [] && (IsShort(tokens[0]) || IsLong(tokens[0]))
    requires IsShort(tokens[0]) ==> sub + 1 < |tokens[0]|
    ensures var event := ParseHead(defs, tokens, sub).event;
            event.error != NoError ==>
              && event.arg == None
              && if IsShort(tokens[0]) then event.opt == tokens[0][sub + 1] as int
                 else if event.error == Invalid then event.opt == 0 && forall d :: d in defs ==> !Matches(d.longname, tokens[0][2..])
                 else exists d :: d in defs && Matches(d.longname, tokens[0][2..]) && d.shortname == event.opt
  {
    var i := FirstLong(defs, tokens[0][2..]);
    if i < |defs| {
      assert defs[i] in defs;
    }
  }

  // ---------- Exactly which answer ----------

  /** Every token is of one kind.  A lone "-" and the empty string are positional. */
  lemma TokenKinds(a: string)
    ensures IsDashDash(a) <==> a == "--"
    ensures IsLong(a) <==> "--" < a
    ensures IsShort(a) <==> "-" < a && !("--" <= a)
    ensures IsPositional(a) <==> a == "-" || !("-" <= a)
  {}

  /** The letter's descriptor is the last one with that short name; only visible ASCII letters have one. */
  ghost predicate ShortHas(defs: seq<Def>, c: char, argtype: ArgType) {
    && 33 <= c as int <= 126
    && exists i :: 0 <= i < |defs| && defs[i].shortname == c as int && defs[i].argtype == argtype
                   && forall k :: i < k < |defs| ==> defs[k].shortname != c as int
  }

  ghost predicate ShortKnown(defs: seq<Def>, c: char) {
    33 <= c as int <= 126 && exists d :: d in defs && d.shortname == c as int
  }

  /** What parsing letter `sub` of a cluster must report, and when it is an error. */
  ghost predicate ShortMeans(defs: seq<Def>, cluster: string, sub: nat, next: Option<string>, p: Parsed)
    requires sub + 1 < |cluster|
  {
    var c, more := cluster[sub + 1], sub + 2 < |cluster|;
    var known := ShortKnown(defs, c);
    var takes := ShortHas(defs, c, Required) && !more;
    && p.event.opt == c as int
    && (p.event.error == Invalid <==> !known)
    && (p.event.error == Missing <==> takes && next.None?)
    && (p.event.error == NoError <==> known && !(takes && next.None?))
    && p.event.id == (if known then Some(c as int) else None)
    && p.event.arg == (if known && !ShortHas(defs, c, NoArg) && more then Some(cluster[sub + 2..])
                       else if takes then next else None)
    && (p.consumed, p.sub) == (if ShortHas(defs, c, NoArg) && more then (0, sub + 1)
                               else if takes && next.Some? then (2, 0) else (1, 0))
  }

  /** `option` is the name itself or the name, an equals sign and a value. */
  predicate Names(longname: Option<string>, option: string) {
    longname.Some? && '=' !in longname.value && (option == longname.value || longname.value + "=" <= option)
  }

  /** The option's descriptor is the first one that names it. */
  ghost predicate LongHas(defs: seq<Def>, option: string, d: Def) {
    exists i :: 0 <= i < |defs| && defs[i] == d && Names(d.longname, option)
                && forall k :: 0 <= k < i ==> !Names(defs[k].longname, option)
  }

  /** What parsing a long option must report under its descriptor. */
  predicate LongMeans(d: Def, option: string, next: Option<string>, p: Parsed)
    requires Names(d.longname, option)
  {
    var value := '=' in option;
    var takes := d.argtype == Required && !value;
    && p.event.opt == d.shortname && p.event.id == Some(d.shortname) && p.sub == 0
    && (p.event.error == TooMany <==> d.argtype == NoArg && value)
    && (p.event.error == Missing <==> takes && next.None?)
    && (p.event.error == NoError <==> !(d.argtype == NoArg && value) && !(takes && next.None?))
    && (if value && p.event.error == NoError
        then p.event.arg.Some? && option == d.longname.value + "=" + p.event.arg.value
        else p.event.arg == if takes then next else None)
    && p.consumed == if takes && next.Some? then 2 else 1
  }

  predicate LongUnknown(p: Parsed) {
    p == Parsed(Event(Invalid, None, 0, None), 1, 0)
  }

  /** What parsing the option at the head of the tokens must report, over the table itself. */
  ghost predicate HeadMeans(defs: seq<Def>, tokens: seq<string>, sub: nat, p: Parsed)
    requires tokens != [] && (IsShort(tokens[0]) || IsLong(tokens[0]))
    requires IsShort(tokens[0]) ==> sub + 1 < |tokens[0]|
  {
    var next := if |tokens| >= 2 then Some(tokens[1]) else None;
    if IsShort(tokens[0]) then ShortMeans(defs, tokens[0], sub, next, p)
    else
      var option := tokens[0][2..];
      && (forall d :: d in defs && LongHas(defs, option, d) ==> LongMeans(d, option, next, p))
      && (LongUnknown(p) <==> forall d :: d in defs ==> !Names(d.longname, option))
  }

  lemma {:induction false} LastShortIs(defs: seq<Def>, c: char)
    ensures LastShort(defs, c).None? <==> forall d :: d in defs ==> d.shortname != c as int
    ensures LastShort(defs, c).Some? ==>
              exists i :: 0 <= i < |defs| && defs[i].shortname == c as int && defs[i].argtype == LastShort(defs, c).value
                          && forall k :: i < k < |defs| ==> defs[k].shortname != c as int
  {
    if defs != [] && defs[|defs| - 1].shortname != c as int {
      var init := defs[..|defs| - 1];
      LastShortIs(init, c);
      assert defs == init + [defs[|defs| - 1]];
    }
  }

  lemma ShortTypeIs(defs: seq<Def>, c: char, argtype: ArgType)
    ensures ShortKnown(defs, c) <==> ShortType(defs, c).Some?
    ensures ShortHas(defs, c, argtype) <==> ShortType(defs, c) == Some(argtype)
  {
    LastShortIs(defs, c);
  }

  lemma {:induction false} EqualsIs(option: string, i: nat)
    requires i <= |option| && '=' !in option[..i] && (i < |option| ==> option[i] == '=')
    ensures EqualsAt(option) == i
  {
    if i > 0 {
      assert option[..i][0] == option[0] && option[1..][..i - 1] == option[..i][1..];
      EqualsIs(option[1..], i - 1);
    }
  }

  lemma SignInOption(option: string)
    ensures '=' in option <==> EqualsAt(option) < |option|
  {
    assert option[..|option|] == option;
  }

  lemma NamedMatches(n: string, option: string)
    requires '=' !in n && (option == n || n + "=" <= option)
    ensures EqualsAt(option) == |n| && option[..|n|] == n
  {
    assert option[..|n|] == n;
    assert option != n ==> option[|n|] == (n + "=")[|n|];
    EqualsIs(option, |n|);
  }

  lemma MatchNames(n: string, option: string)
    requires n == option[..EqualsAt(option)]
    ensures '=' !in n && (option == n || n + "=" <= option)
  {
    var i := EqualsAt(option);
    if i == |option| {
      assert option[..i] == option;
    } else {
      assert option[..i + 1] == n + "=";
    }
  }

  lemma NamesIs(longname: Option<string>, option: string)
    ensures Names(longname, option) <==> Matches(longname, option)
    ensures Names(longname, option) ==> EqualsAt(option) == |longname.value|
    ensures '=' in option <==> EqualsAt(option) < |option|
  {
    hide EqualsAt;
    SignInOption(option);
    if Names(longname, option) {
      NamedMatches(longname.value, option);
    }
    if Matches(longname, option) {
      MatchNames(longname.value, option);
    }
  }

  lemma ShortAnswers(defs: seq<Def>, cluster: string, sub: nat, next: Option<string>)
    requires sub + 1 < |cluster|
    ensures ShortMeans(defs, cluster, sub, next, ParseShort(defs, cluster, sub, next))
  {
    hide ShortKnown, ShortHas, ShortType;
    var c := cluster[sub + 1];
    ShortTypeIs(defs, c, NoArg);
    ShortTypeIs(defs, c, Required);
  }

  lemma LongAnswers(defs: seq<Def>, option: string, next: Option<string>)
    ensures var p := ParseLong(defs, option, next);
            && (forall d :: d in defs && LongHas(defs, option, d) ==> LongMeans(d, option, next, p))
            && (LongUnknown(p) <==> forall d :: d in defs ==> !Names(d.longname, option))
  {
    hide Matches, EqualsAt;
    var i, eq, p := FirstLong(defs, option), EqualsAt(option), ParseLong(defs, option, next);
    forall k | 0 <= k < |defs|
      ensures Names(defs[k].longname, option) <==> Matches(defs[k].longname, option)
    {
      NamesIs(defs[k].longname, option);
    }
    if i < |defs| {
      NamesIs(defs[i].longname, option);
      assert defs[i] in defs;
    }
  }

  /** The answer to an option is exactly what the table says it must be. */
  lemma HeadAnswers(defs: seq<Def>, tokens: seq<string>, sub: nat)
    requires tokens != [] && (IsShort(tokens[0]) || IsLong(tokens[0]))
    requires IsShort(tokens[0]) ==> sub + 1 < |tokens[0]|
    ensures HeadMeans(defs, tokens, sub, ParseHead(defs, tokens, sub))
  {
    hide ShortMeans, LongMeans, LongHas, LongUnknown, ParseShort, ParseLong, Names;
    if IsShort(tokens[0]) {
      ShortAnswers(defs, tokens[0], sub, Following(tokens));
    } else {
      LongAnswers(defs, tokens[0][2..], Following(tokens));
    }
  }

  // ---------- The whole run, on tokens that stay where they are ----------

  /** The first token that is not positional. */
  function Scan(tokens: seq<string>): (i: nat)
    ensures i <= |tokens| && (i < |tokens| ==> !IsPositional(tokens[i]))
    ensures forall k :: 0 <= k < i ==> IsPositional(tokens[k])
  {
    if tokens == [] || !IsPositional(tokens[0]) then 0
    else
      var i := Scan(tokens[1..]);
      assert forall k :: 0 < k < 1 + i ==> tokens[k] == tokens[1..][k - 1];
      1 + i
  }

  /** A position inside a cluster belongs to the next option, which is that cluster. */
  predicate ClusterOpen(tokens: seq<string>, sub: nat) {
    var i := Scan(tokens);
    sub > 0 ==> i < |tokens| && IsShort(tokens[i]) && sub + 1 < |tokens[i]|
  }

  /**
   * The reports of a run; the tokens options took, the positionals skipped, each in order; whether "--" was met; and
   * the tokens never looked at.
   */
  datatype Outcome = Outcome(events: seq<Event>, taken: seq<string>, skipped: seq<string>, dashDash: bool, tail: seq<string>)
  {
    function Front(): seq<string> {
      taken + if dashDash then ["--"] else []
    }

    /** The order in which the run leaves the tokens. */
    function Arranged(): seq<string> {
      Front() + skipped + tail
    }
  }

  lemma OpenHead(tokens: seq<string>, sub: nat)
    requires tokens != [] && ClusterOpen(tokens, sub)
    ensures IsPositional(tokens[0]) ==> ClusterOpen(tokens[1..], sub)
    ensures IsShort(tokens[0]) ==> sub + 1 < |tokens[0]|
    ensures IsLong(tokens[0]) || IsDashDash(tokens[0]) ==> sub == 0
  {
    assert Scan(tokens) == if IsPositional(tokens[0]) then 1 + Scan(tokens[1..]) else 0;
  }

  function Walk(defs: seq<Def>, tokens: seq<string>, sub: nat): Outcome
    requires ClusterOpen(tokens, sub)
    decreases |tokens|, if tokens == [] then 0 else |tokens[0]| - sub
  {
    if tokens == [] then Outcome([], [], [], false, [])
    else
      OpenHead(tokens, sub);
      if IsDashDash(tokens[0]) then Outcome([], [], [], true, tokens[1..])
      else if IsPositional(tokens[0]) then
        var o := Walk(defs, tokens[1..], sub);
        o.(skipped := [tokens[0]] + o.skipped)
      else
        var p := ParseHead(defs, tokens, sub);
        var o := Walk(defs, tokens[p.consumed..], p.sub);
        o.(events := [p.event] + o.events, taken := tokens[..p.consumed] + o.taken)
  }

  // ---------- The parser's state, whose tokens move ----------

  lemma OpenAt(tokens: seq<string>, sub: nat)
    requires ClusterOpen(tokens, sub)
    ensures sub > 0 ==> Scan(tokens) < |tokens| && sub + 1 < |tokens[Scan(tokens)]|
  {}

  datatype State = State(argv: seq<string>, optind: nat, subind: nat) {

    predicate Valid() {
      optind <= |argv| && ClusterOpen(argv[optind..], subind)
    }

    /** Index of the next token that is not positional. */
    function NextAt(): (i: nat)
      requires Valid()
      ensures optind <= i <= |argv|
    {
      optind + Scan(argv[optind..])
    }

    /** Characters left in the cluster or option that is next. */
    function CharsLeft(): nat
      requires Valid()
    {
      OpenAt(argv[optind..], subind);
      if NextAt() < |argv| && subind > 0 then |argv[NextAt()]| - subind
      else if NextAt() < |argv| then |argv[NextAt()]|
      else 0
    }
  }

  /** `count` tokens from `from` on go in front of the tokens from `to` on. */
  function Moved(argv: seq<string>, from: nat, to: nat, count: nat): (r: seq<string>)
    requires to <= from && from + count <= |argv|
    ensures |r| == |argv|
  {
    argv[..to] + argv[from..from + count] + argv[to..from] + argv[from + count..]
  }

  /** One call: the new state and what it reports, nothing when it is done. */
  function Next(defs: seq<Def>, permute: bool, s: State): (State, Option<Event>)
    requires s.Valid()
  {
    var i := s.NextAt();
    if i == |s.argv| || (!permute && i > s.optind) then (s, None)
    else
      assert s.argv[i] == s.argv[s.optind..][Scan(s.argv[s.optind..])];
      if IsDashDash(s.argv[i]) then (State(Moved(s.argv, i, s.optind, 1), s.optind + 1, s.subind), None)
      else
        var p := ParseHead(defs, s.argv[i..], s.subind);
        (State(Moved(s.argv, i, s.optind, p.consumed), s.optind + p.consumed, p.sub), Some(p.event))
  }

  /** What a call answers: it is done exactly at the end, at "--" and, without permuting, at a positional. */
  ghost predicate CallMeans(defs: seq<Def>, permute: bool, s: State, t: State, e: Option<Event>)
    requires s.Valid()
  {
    var i := s.NextAt();
    && (e.None? <==> i == |s.argv| || (!permute && i > s.optind) || s.argv[i] == "--")
    && (e.Some? ==>
          && (IsShort(s.argv[i]) || IsLong(s.argv[i])) && (IsShort(s.argv[i]) ==> s.subind + 1 < |s.argv[i]|)
          && t.optind >= s.optind
          && HeadMeans(defs, s.argv[i..], s.subind, Parsed(e.value, t.optind - s.optind, t.subind)))
  }

  lemma TokenAt(s: State)
    requires s.Valid()
    ensures var i := s.NextAt();
            i < |s.argv| ==> !IsPositional(s.argv[i]) && (IsShort(s.argv[i]) ==> s.subind + 1 < |s.argv[i]|)
  {
    var T := s.argv[s.optind..];
    assert s.NextAt() < |s.argv| ==> s.argv[s.NextAt()] == T[Scan(T)];
  }

  lemma NextMeans(defs: seq<Def>, permute: bool, s: State)
    requires s.Valid()
    ensures var (t, e) := Next(defs, permute, s);
            CallMeans(defs, permute, s, t, e) && (e.Some? ==> e.value.error != Done)
  {
    hide Scan, ParseHead, HeadMeans, Moved, ClusterOpen;
    TokenAt(s);
    var i := s.NextAt();
    if i < |s.argv| {
      TokenKinds(s.argv[i]);
      if !IsDashDash(s.argv[i]) {
        HeadAnswers(defs, s.argv[i..], s.subind);
      }
    }
  }

  lemma {:induction false} ScanSkips(P: seq<string>, U: seq<string>)
    requires forall k :: 0 <= k < |P| ==> IsPositional(P[k])
    ensures Scan(P + U) == |P| + Scan(U)
  {
    if P == [] {
      assert P + U == U;
    } else {
      ScanSkips(P[1..], U);
      assert (P + U)[1..] == P[1..] + U;
    }
  }

  lemma MovedParts(F: seq<string>, P: seq<string>, U: seq<string>, count: nat)
    requires count <= |U|
    ensures Moved(F + P + U, |F| + |P|, |F|, count) == F + U[..count] + P + U[count..]
  {
    var argv := F + P + U;
    assert argv[|F| + |P|..|F| + |P| + count] == U[..count] && argv[|F| + |P| + count..] == U[count..];
    assert argv[|F|..|F| + |P|] == P && argv[..|F|] == F;
  }

  /**
   * The tokens of a state: those before `optind`, the positionals that the scan passes, and the rest, which begins with
   * the token the scan stops at.
   */
  ghost predicate Sees(s: State, F: seq<string>, P: seq<string>, U: seq<string>)
    requires s.Valid()
  {
    && s.argv == F + P + U && |F| == s.optind && s.NextAt() == |F| + |P|
    && (forall k :: 0 <= k < |P| ==> IsPositional(P[k]))
    && (U != [] ==> !IsPositional(U[0]))
    && (s.subind > 0 ==> U != [] && IsShort(U[0]) && s.subind + 1 < |U[0]|)
  }

  lemma SplitAt(argv: seq<string>, i: nat, n: nat)
    requires i + n <= |argv|
    ensures var T := argv[i..];
            argv == argv[..i] + T[..n] + T[n..] && (n < |T| ==> T[n..][0] == T[n]) && forall k :: 0 <= k < n ==> T[..n][k] == T[k]
  {}

  lemma See(s: State) returns (F: seq<string>, P: seq<string>, U: seq<string>)
    requires s.Valid()
    ensures Sees(s, F, P, U)
  {
    hide Scan, IsPositional, IsShort;
    var T, n := s.argv[s.optind..], s.NextAt() - s.optind;
    SplitAt(s.argv, s.optind, n);
    F, P, U := s.argv[..s.optind], T[..n], T[n..];
  }

  lemma SeenTail(s: State, F: seq<string>, P: seq<string>, U: seq<string>)
    requires s.Valid() && Sees(s, F, P, U)
    ensures s.argv[s.optind..] == P + U && s.argv[s.NextAt()..] == U && (U != [] ==> s.argv[s.NextAt()] == U[0])
  {
    hide Scan;
    assert s.argv == F + (P + U);
  }

  function Head(U: seq<string>): string {
    if U == [] then "" else U[0]
  }

  /** One call in these terms. */
  lemma NextSees(defs: seq<Def>, permute: bool, s: State, F: seq<string>, P: seq<string>, U: seq<string>)
    requires s.Valid() && Sees(s, F, P, U)
    ensures (IsShort(Head(U)) ==> s.subind + 1 < |U[0]|) && (!IsShort(Head(U)) ==> s.subind == 0)
    ensures if U == [] || (!permute && P != []) then Next(defs, permute, s) == (s, None)
            else if IsDashDash(U[0]) then
              U[0] == "--" && Next(defs, permute, s) == (State(F + U[..1] + P + U[1..], s.optind + 1, 0), None)
            else
              && (IsShort(U[0]) || IsLong(U[0]))
              && var p := ParseHead(defs, U, s.subind);
                 Next(defs, permute, s) == (State(F + U[..p.consumed] + P + U[p.consumed..], s.optind + p.consumed, p.sub), Some(p.event))
  {
    hide Scan, ParseHead, Moved;
    SeenTail(s, F, P, U);
    if U != [] {
      MovedParts(F, P, U, 1);
      if IsShort(U[0]) || IsLong(U[0]) {
        MovedParts(F, P, U, ParseHead(defs, U, s.subind).consumed);
      }
    }
  }

  lemma StillOpen(P: seq<string>, U: seq<string>, sub: nat)
    requires forall k :: 0 <= k < |P| ==> IsPositional(P[k])
    requires sub > 0 ==> U != [] && IsShort(U[0]) && sub + 1 < |U[0]|
    ensures ClusterOpen(P + U, sub)
  {
    ScanSkips(P, U);
  }

  lemma Behind(A: seq<string>, B: seq<string>)
    ensures (A + B)[|A|..] == B && (A + B)[..|A|] == A
  {}

  lemma CharsIn(s: State, F: seq<string>, P: seq<string>, U: seq<string>)
    requires s.Valid() && Sees(s, F, P, U)
    ensures s.CharsLeft() == |Head(U)| - s.subind
  {
    hide Scan;
    SeenTail(s, F, P, U);
  }

  /** The tokens after those of an option went to the front. */
  lemma Landed(F: seq<string>, P: seq<string>, U: seq<string>, c: nat)
    requires c <= |U|
    ensures var a := F + U[..c] + P + U[c..];
            && |a| == |F + P + U| && a[|F| + c..] == P + U[c..] && a[..|F| + c] == F + U[..c]
            && (c == 0 ==> a == F + P + U)
  {
    assert F + U[..c] + P + U[c..] == (F + U[..c]) + (P + U[c..]);
    Behind(F + U[..c], P + U[c..]);
  }

  lemma StillSees(s: State, t: State, F: seq<string>, P: seq<string>, U: seq<string>)
    requires s.Valid() && Sees(s, F, P, U) && t.Valid() && t.argv == s.argv && t.optind == s.optind
    requires t.subind > 0 ==> U != [] && IsShort(U[0]) && t.subind + 1 < |U[0]|
    ensures Sees(t, F, P, U)
  {}

  lemma DoneValid(defs: seq<Def>, permute: bool, s: State, F: seq<string>, P: seq<string>, U: seq<string>)
    requires s.Valid() && Sees(s, F, P, U) && Next(defs, permute, s).1.None?
    ensures var t := Next(defs, permute, s).0; t.Valid() && |t.argv| == |s.argv|
  {
    hide ParseHead, Scan;
    NextSees(defs, permute, s, F, P, U);
  }

  lemma NextValid(defs: seq<Def>, permute: bool, s: State)
    requires s.Valid()
    ensures var (t, e) := Next(defs, permute, s);
            && t.Valid() && |t.argv| == |s.argv|
            && (e.Some? ==> t.optind > s.optind || (t.optind == s.optind && t.CharsLeft() < s.CharsLeft()))
  {
    hide ParseHead, Next, Scan, ClusterOpen, State.CharsLeft;
    var F, P, U := See(s);
    NextSees(defs, permute, s, F, P, U);
    if Next(defs, permute, s).1.Some? {
      var p := ParseHead(defs, U, s.subind);
      Landed(F, P, U, p.consumed);
      StillOpen(P, U[p.consumed..], p.sub);
      CharsIn(s, F, P, U);
      if p.consumed == 0 {
        StillSees(s, Next(defs, permute, s).0, F, P, U);
        CharsIn(Next(defs, permute, s).0, F, P, U);
      }
    } else {
      DoneValid(defs, permute, s, F, P, U);
    }
  }

  /** Calls until one is done. */
  function Run(defs: seq<Def>, permute: bool, s: State): (State, seq<Event>)
    requires s.Valid()
    decreases |s.argv| - s.optind, s.CharsLeft()
  {
    NextValid(defs, permute, s);
    var (t, e) := Next(defs, permute, s);
    if e.None? then (t, [])
    else
      var (u, es) := Run(defs, permute, t);
      (u, [e.value] + es)
  }

  // ---------- A whole run ----------

  lemma WalkPast(defs: seq<Def>, x: string, V: seq<string>, sub: nat)
    requires IsPositional(x) && ClusterOpen([x] + V, sub)
    ensures ClusterOpen(V, sub)
    ensures var o := Walk(defs, V, sub); Walk(defs, [x] + V, sub) == o.(skipped := [x] + o.skipped)
  {
    hide Scan, ParseHead, ClusterOpen;
    OpenHead([x] + V, sub);
    assert ([x] + V)[1..] == V;
  }

  lemma {:induction false} WalkSkips(defs: seq<Def>, P: seq<string>, U: seq<string>, sub: nat)
    requires forall k :: 0 <= k < |P| ==> IsPositional(P[k])
    requires ClusterOpen(U, sub) && ClusterOpen(P + U, sub)
    ensures var o := Walk(defs, U, sub); Walk(defs, P + U, sub) == o.(skipped := P + o.skipped)
    decreases |P|
  {
    hide Scan, ParseHead, ClusterOpen, Walk, IsPositional;
    if P == [] {
      assert P + U == U;
    } else {
      assert P + U == [P[0]] + (P[1..] + U);
      WalkPast(defs, P[0], P[1..] + U, sub);
      WalkSkips(defs, P[1..], U, sub);
      var o := Walk(defs, U, sub);
      assert [P[0]] + (P[1..] + o.skipped) == P + o.skipped;
    }
  }

  /** Moving the tokens of one option to the front leaves the rest of the run as it was. */
  lemma WalkOption(defs: seq<Def>, P: seq<string>, U: seq<string>, sub: nat)
    requires forall k :: 0 <= k < |P| ==> IsPositional(P[k])
    requires U != [] && (IsShort(U[0]) || IsLong(U[0])) && ClusterOpen(P + U, sub)
    requires (IsShort(U[0]) ==> sub + 1 < |U[0]|) && (IsLong(U[0]) ==> sub == 0)
    ensures var p := ParseHead(defs, U, sub);
            && ClusterOpen(P + U[p.consumed..], p.sub)
            && var o := Walk(defs, P + U[p.consumed..], p.sub);
               Walk(defs, P + U, sub) == o.(events := [p.event] + o.events, taken := U[..p.consumed] + o.taken)
  {
    hide ParseHead;
    var p := ParseHead(defs, U, sub);
    StillOpen(P, U[p.consumed..], p.sub);
    StillOpen([], U, sub);
    StillOpen([], U[p.consumed..], p.sub);
    assert [] + U == U && [] + U[p.consumed..] == U[p.consumed..];
    WalkSkips(defs, P, U, sub);
    WalkSkips(defs, P, U[p.consumed..], p.sub);
  }

  /** `t` is where a run from `s` should end: everything arranged, and the first positional next. */
  ghost predicate Arrives(defs: seq<Def>, s: State, t: State, events: seq<Event>)
    requires s.Valid()
  {
    var o := Walk(defs, s.argv[s.optind..], s.subind);
    && events == o.events && t.argv == s.argv[..s.optind] + o.Arranged() && t.optind == s.optind + |o.Front()|
    && t.subind == 0
  }

  lemma Joins(F: seq<string>, taken: seq<string>, o: Outcome, later: Outcome)
    requires o.taken == taken + later.taken && o.dashDash == later.dashDash && o.skipped == later.skipped && o.tail == later.tail
    ensures F + taken + later.Arranged() == F + o.Arranged() && |taken| + |later.Front()| == |o.Front()|
  {}

  lemma ArrivesLater(defs: seq<Def>, s: State, F: seq<string>, P: seq<string>, U: seq<string>, u: State, events: seq<Event>)
    requires s.Valid() && Sees(s, F, P, U)
    requires var (t, e) := Next(defs, true, s); e.Some? && t.Valid() && Arrives(defs, t, u, events)
    ensures Arrives(defs, s, u, [Next(defs, true, s).1.value] + events)
  {
    hide Scan, ParseHead, Next, Walk, ClusterOpen, Outcome.Front, Outcome.Arranged;
    NextSees(defs, true, s, F, P, U);
    SeenTail(s, F, P, U);
    Behind(F, P + U);
    assert s.argv == F + (P + U);
    var p := ParseHead(defs, U, s.subind);
    Landed(F, P, U, p.consumed);
    WalkOption(defs, P, U, s.subind);
    Joins(F, U[..p.consumed], Walk(defs, P + U, s.subind), Walk(defs, P + U[p.consumed..], p.sub));
  }

  lemma WalkEnd(defs: seq<Def>, U: seq<string>)
    requires U == [] || IsDashDash(U[0])
    ensures ClusterOpen(U, 0)
    ensures Walk(defs, U, 0) == if U == [] then Outcome([], [], [], false, []) else Outcome([], [], [], true, U[1..])
  {}

  lemma EndArranged(F: seq<string>, P: seq<string>, U: seq<string>)
    requires U != [] ==> U[0] == "--"
    ensures U == [] ==> var o := Outcome([], [], P + [], false, []); F + P + U == F + o.Arranged() && |o.Front()| == 0
    ensures U != [] ==> var o := Outcome([], [], P + [], true, U[1..]);
                        F + U[..1] + P + U[1..] == F + o.Arranged() && |o.Front()| == 1
  {
    if U != [] {
      assert U[..1] == ["--"];
    }
  }

  lemma RunEnds(defs: seq<Def>, s: State, F: seq<string>, P: seq<string>, U: seq<string>)
    requires s.Valid() && Sees(s, F, P, U) && Next(defs, true, s).1.None?
    ensures Arrives(defs, s, Next(defs, true, s).0, [])
  {
    hide Scan, ParseHead, Next, Walk, ClusterOpen, Outcome.Front, Outcome.Arranged;
    NextSees(defs, true, s, F, P, U);
    SeenTail(s, F, P, U);
    Behind(F, P + U);
    assert s.argv == F + (P + U);
    WalkEnd(defs, U);
    WalkSkips(defs, P, U, 0);
    EndArranged(F, P, U);
  }

  /**
   * A run with permuting leaves, behind what was in front of it, the tokens its options took, then "--" if it was met,
   * then the skipped positionals, each in their order, then the tail; and it stops at the first positional.
   */
  lemma {:induction false} RunArranges(defs: seq<Def>, s: State)
    requires s.Valid()
    ensures var (t, events) := Run(defs, true, s); Arrives(defs, s, t, events)
    decreases |s.argv| - s.optind, s.CharsLeft()
  {
    hide Scan, ParseHead, Moved, Arrives, Next;
    NextValid(defs, true, s);
    var (t, e) := Next(defs, true, s);
    var F, P, U := See(s);
    if e.Some? {
      RunArranges(defs, t);
      ArrivesLater(defs, s, F, P, U, Run(defs, true, t).0, Run(defs, true, t).1);
    } else {
      RunEnds(defs, s, F, P, U);
    }
  }

  // ---------- What an arrangement is ----------

  /** `s` is made of `a` and `b`, each in its order. */
  ghost predicate Interleaves<T>(s: seq<T>, a: seq<T>, b: seq<T>)
    decreases |s|
  {
    if s == [] then a == [] && b == []
    else (a != [] && a[0] == s[0] && Interleaves(s[1..], a[1..], b)) || (b != [] && b[0] == s[0] && Interleaves(s[1..], a, b[1..]))
  }

  lemma {:induction false} TakesFirst<T>(s: seq<T>, a: seq<T>, b: seq<T>, c: nat)
    requires c <= |s| && c <= |a| && s[..c] == a[..c] && Interleaves(s[c..], a[c..], b)
    ensures Interleaves(s, a, b)
    decreases c
  {
    if c > 0 {
      assert s[0] == s[..c][0] == a[..c][0] == a[0];
      assert s[1..][..c - 1] == s[..c][1..] && a[1..][..c - 1] == a[..c][1..];
      assert s[1..][c - 1..] == s[c..] && a[1..][c - 1..] == a[c..];
      TakesFirst(s[1..], a[1..], b, c - 1);
    } else {
      assert s[0..] == s && a[0..] == a;
    }
  }

  /**
   * A stable partition: the first `m` tokens are the option tokens and the skipped positionals, each in order; then
   * comes the end, or "--" and the tail.
   */
  ghost predicate Stable(tokens: seq<string>, o: Outcome, m: nat) {
    && m <= |tokens| && Interleaves(tokens[..m], o.taken, o.skipped)
    && (forall k :: 0 <= k < |o.skipped| ==> IsPositional(o.skipped[k]))
    && if o.dashDash then m < |tokens| && tokens[m] == "--" && o.tail == tokens[m + 1..] else m == |tokens| && o.tail == []
  }

  lemma StableEnd(tokens: seq<string>, o: Outcome)
    requires o.taken == [] && o.skipped == []
    requires if o.dashDash then tokens != [] && tokens[0] == "--" && o.tail == tokens[1..] else tokens == [] && o.tail == []
    ensures Stable(tokens, o, 0)
  {}

  lemma StableSkip(tokens: seq<string>, o: Outcome, later: Outcome, m: nat)
    requires tokens != [] && IsPositional(tokens[0]) && Stable(tokens[1..], later, m)
    requires o == later.(events := o.events, skipped := [tokens[0]] + later.skipped)
    ensures Stable(tokens, o, m + 1)
  {
    assert tokens[..m + 1][1..] == tokens[1..][..m] && o.skipped[1..] == later.skipped;
  }

  lemma StableOption(tokens: seq<string>, o: Outcome, later: Outcome, c: nat, m: nat)
    requires c <= |tokens| && Stable(tokens[c..], later, m)
    requires o == later.(events := o.events, taken := tokens[..c] + later.taken)
    ensures Stable(tokens, o, m + c)
  {
    hide Interleaves;
    assert tokens[..m + c][c..] == tokens[c..][..m] && o.taken[c..] == later.taken;
    assert tokens[..m + c][..c] == tokens[..c] == o.taken[..c];
    TakesFirst(tokens[..m + c], o.taken, o.skipped, c);
  }

  lemma {:induction false} WalkIsStable(defs: seq<Def>, tokens: seq<string>, sub: nat) returns (m: nat)
    requires ClusterOpen(tokens, sub)
    ensures Stable(tokens, Walk(defs, tokens, sub), m)
    decreases |tokens|, if tokens == [] then 0 else |tokens[0]| - sub
  {
    hide ParseHead, Stable, ClusterOpen;
    if tokens == [] || IsDashDash(tokens[0]) {
      StableEnd(tokens, Walk(defs, tokens, sub));
      m := 0;
    } else {
      OpenHead(tokens, sub);
      if IsPositional(tokens[0]) {
        m := WalkIsStable(defs, tokens[1..], sub);
        StableSkip(tokens, Walk(defs, tokens, sub), Walk(defs, tokens[1..], sub), m);
        m := m + 1;
      } else {
        var p := ParseHead(defs, tokens, sub);
        var rest := tokens[p.consumed..];
        StillOpen([], rest, p.sub);
        assert [] + rest == rest;
        m := WalkIsStable(defs, rest, p.sub);
        StableOption(tokens, Walk(defs, tokens, sub), Walk(defs, rest, p.sub), p.consumed, m);
        m := m + p.consumed;
      }
    }
  }

  /** A place to stop without permuting: the end, a positional, or behind "--". */
  predicate PosixStop(s: State, i: nat)
    requires i <= |s.argv|
  {
    i == |s.argv| || IsPositional(s.argv[i]) || (s.optind < i && s.argv[i - 1] == "--")
  }

  lemma StaysPut(F: seq<string>, P: seq<string>, U: seq<string>, c: nat)
    requires P == [] && c <= |U|
    ensures F + U[..c] + P + U[c..] == F + P + U
  {}

  /** A call that does not permute and finds an option finds it at `optind`. */
  lemma PosixLands(defs: seq<Def>, s: State, F: seq<string>, P: seq<string>, U: seq<string>)
    requires s.Valid() && Sees(s, F, P, U) && Next(defs, false, s).1.Some?
    ensures P == [] && U != [] && (IsShort(U[0]) || IsLong(U[0]))
    ensures (IsShort(U[0]) ==> s.subind + 1 < |U[0]|) && (IsLong(U[0]) ==> s.subind == 0)
    ensures var p, (t, e) := ParseHead(defs, U, s.subind), Next(defs, false, s);
            && e == Some(p.event) && t.argv == s.argv && t.optind == s.optind + p.consumed && t.subind == p.sub
            && t.argv[t.optind..] == P + U[p.consumed..]
  {
    hide Scan, ParseHead, Next, ClusterOpen, IsDashDash, IsPositional;
    NextSees(defs, false, s, F, P, U);
    var p := ParseHead(defs, U, s.subind);
    Landed(F, P, U, p.consumed);
    StaysPut(F, P, U, p.consumed);
  }

  lemma PosixStep(defs: seq<Def>, s: State, F: seq<string>, P: seq<string>, U: seq<string>)
    requires s.Valid() && Sees(s, F, P, U) && Next(defs, false, s).1.Some?
    ensures var (t, e) := Next(defs, false, s);
            && t.argv == s.argv && s.optind <= t.optind && t.Valid()
            && Walk(defs, s.argv[s.optind..], s.subind).events == [e.value] + Walk(defs, t.argv[t.optind..], t.subind).events
  {
    NextValid(defs, false, s);
    hide Scan, ParseHead, Next, Walk, ClusterOpen, IsDashDash, IsShort, IsLong, IsPositional, Sees;
    SeenTail(s, F, P, U);
    PosixLands(defs, s, F, P, U);
    WalkOption(defs, P, U, s.subind);
  }

  /** A call that does not permute and is done leaves its tokens, and passes "--". */
  lemma PosixLeaves(defs: seq<Def>, s: State, F: seq<string>, P: seq<string>, U: seq<string>)
    requires s.Valid() && Sees(s, F, P, U) && Next(defs, false, s).1.None?
    ensures var t := Next(defs, false, s).0;
            if U == [] || P != [] then t == s else P == [] && U[0] == "--" && t.argv == s.argv && t.optind == s.optind + 1
  {
    hide Scan, ParseHead, Next, ClusterOpen, IsDashDash, IsShort, IsLong, IsPositional;
    NextSees(defs, false, s, F, P, U);
    if U != [] && P == [] {
      StaysPut(F, P, U, 1);
    }
  }

  /** Where such a call stops. */
  lemma PosixStops(s: State, F: seq<string>, P: seq<string>, U: seq<string>)
    requires s.Valid() && Sees(s, F, P, U)
    ensures s.optind + |P| + |U| == |s.argv|
    ensures U == [] || P != [] ==> PosixStop(s, s.optind)
    ensures P == [] && U != [] && U[0] == "--" ==> PosixStop(s, s.optind + 1)
  {
    hide Scan, ClusterOpen, IsDashDash, IsShort, IsLong, IsPositional;
    SeenTail(s, F, P, U);
    if P != [] {
      assert s.argv[s.optind] == P[0];
    } else if U != [] {
      assert s.argv[s.optind] == U[0];
    }
  }

  lemma PosixEnd(defs: seq<Def>, s: State, F: seq<string>, P: seq<string>, U: seq<string>)
    requires s.Valid() && Sees(s, F, P, U) && Next(defs, false, s).1.None?
    ensures var t := Next(defs, false, s).0; t.argv == s.argv && s.optind <= t.optind <= |s.argv| && PosixStop(s, t.optind)
  {
    hide Scan, ParseHead, Next, ClusterOpen, IsDashDash, IsShort, IsLong, IsPositional, Sees, PosixStop;
    PosixLeaves(defs, s, F, P, U);
    PosixStops(s, F, P, U);
  }

  /** Without permuting no token moves, and the reports are the first of those of the permuting run. */
  lemma {:induction false} PosixRun(defs: seq<Def>, s: State)
    requires s.Valid()
    ensures var (t, events) := Run(defs, false, s);
            && t.argv == s.argv && s.optind <= t.optind <= |s.argv| && events <= Walk(defs, s.argv[s.optind..], s.subind).events
            && PosixStop(s, t.optind)
    decreases |s.argv| - s.optind, s.CharsLeft()
  {
    hide Scan, ParseHead, Moved, Next, Walk;
    NextValid(defs, false, s);
    var (t, e) := Next(defs, false, s);
    var F, P, U := See(s);
    if e.Some? {
      PosixRun(defs, t);
      PosixStep(defs, s, F, P, U);
    } else {
      PosixEnd(defs, s, F, P, U);
    }
  }
}
