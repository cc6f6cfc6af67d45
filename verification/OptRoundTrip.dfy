/** Parsing undoes printing: command lines written from options and arguments, and read back. */
module OptRoundTrip {

  import opened Opt
  import opened Wrappers

  /** How an argument is written: not at all, in the option's own token, or in the next one. */
  datatype Text = Nothing | Inline(text: string) | Separate(text: string)

  /** Flags in one cluster, perhaps with one option after them that may take an argument; a long option; a positional. */
  datatype Item =
    | Cluster(flags: seq<Def>, last: Option<Def>, arg: Text)
    | LongOption(def: Def, arg: Text)
    | Plain(text: string)

  predicate Printable(d: Def) {
    33 <= d.shortname < 127
  }

  /** Long names are distinct, not empty and without '='; printable short names are distinct and not '-'. */
  ghost predicate WellFormed(defs: seq<Def>) {
    && (forall i, j :: 0 <= i < j < |defs| && defs[i].longname.Some? ==> defs[i].longname != defs[j].longname)
    && (forall i :: 0 <= i < |defs| && defs[i].longname.Some? ==> defs[i].longname.value != "" && '=' !in defs[i].longname.value)
    && (forall i, j :: 0 <= i < j < |defs| && Printable(defs[i]) ==> defs[i].shortname != defs[j].shortname)
    && (forall i :: 0 <= i < |defs| ==> defs[i].shortname != '-' as int)
  }

  /** An argument written with a short option can be told from none only if it is not empty or in its own token. */
  predicate ShortArg(d: Def, arg: Text) {
    match d.argtype
    case NoArg => false
    case Required => arg.Separate? || (arg.Inline? && arg.text != "")
    case Optional => arg.Nothing? || (arg.Inline? && arg.text != "")
  }

  predicate LongArg(d: Def, arg: Text) {
    match d.argtype
    case NoArg => arg.Nothing?
    case Required => !arg.Nothing?
    case Optional => !arg.Separate?
  }

  predicate IsFlag(defs: seq<Def>, d: Def) {
    d in defs && Printable(d) && d.argtype == NoArg
  }

  predicate Good(defs: seq<Def>, item: Item) {
    match item
    case Cluster(flags, last, arg) =>
      && (forall k :: 0 <= k < |flags| ==> IsFlag(defs, flags[k]))
      && (if last.Some? then last.value in defs && Printable(last.value) && ShortArg(last.value, arg) else flags != [] && arg == Nothing)
    case LongOption(d, arg) => d in defs && d.longname.Some? && LongArg(d, arg)
    case Plain(text) => IsPositional(text)
  }

  // ---------- Printing ----------

  function Name(d: Def): char {
    if Printable(d) then d.shortname as char else '?'
  }

  function Names(flags: seq<Def>): string {
    seq(|flags|, k requires 0 <= k < |flags| => Name(flags[k]))
  }

  function InText(arg: Text): string {
    if arg.Inline? then arg.text else ""
  }

  function OutText(arg: Text): seq<string> {
    if arg.Separate? then [arg.text] else []
  }

  function Letters(item: Item): string
    requires item.Cluster?
  {
    Names(item.flags) + if item.last.Some? then [Name(item.last.value)] + InText(item.arg) else ""
  }

  function Render(item: Item): seq<string> {
    match item
    case Cluster(flags, last, arg) => ["-" + Letters(item)] + OutText(arg)
    case LongOption(d, arg) =>
      var name := if d.longname.Some? then d.longname.value else "";
      ["--" + name + if arg.Inline? then "=" + arg.text else ""] + OutText(arg)
    case Plain(text) => [text]
  }

  // ---------- What parsing should report ----------

  function Given(arg: Text): Option<string> {
    if arg.Nothing? then None else Some(arg.text)
  }

  function Report(d: Def, arg: Text): Event {
    Event(NoError, Some(d.shortname), d.shortname, Given(arg))
  }

  function FlagReports(flags: seq<Def>): seq<Event> {
    if flags == [] then [] else [Report(flags[0], Nothing)] + FlagReports(flags[1..])
  }

  function Reports(item: Item): seq<Event> {
    match item
    case Cluster(flags, last, arg) => FlagReports(flags) + if last.Some? then [Report(last.value, arg)] else []
    case LongOption(d, arg) => [Report(d, arg)]
    case Plain(text) => []
  }

  function RenderAll(items: seq<Item>): seq<string> {
    if items == [] then [] else Render(items[0]) + RenderAll(items[1..])
  }

  function AllReports(items: seq<Item>): seq<Event> {
    if items == [] then [] else Reports(items[0]) + AllReports(items[1..])
  }

  /** The tokens of all options, and those of all positionals. */
  function OptionTokens(items: seq<Item>): seq<string> {
    if items == [] then [] else (if items[0].Plain? then [] else Render(items[0])) + OptionTokens(items[1..])
  }

  function Plains(items: seq<Item>): seq<string> {
    if items == [] then [] else (if items[0].Plain? then [items[0].text] else []) + Plains(items[1..])
  }

  // ---------- Looking descriptors up ----------

  lemma {:induction false} FindsLast(defs: seq<Def>, d: Def)
    requires d in defs && Printable(d)
    requires forall i, j :: 0 <= i < j < |defs| && Printable(defs[i]) ==> defs[i].shortname != defs[j].shortname
    ensures LastShort(defs, Name(d)) == Some(d.argtype)
  {
    var n := |defs| - 1;
    if defs[n] != d {
      var i :| 0 <= i < |defs| && defs[i] == d;
      assert defs[..n][i] == d;
      FindsLast(defs[..n], d);
    }
  }

  lemma {:induction false} FindsShort(defs: seq<Def>, d: Def)
    requires WellFormed(defs) && d in defs && Printable(d)
    ensures ShortType(defs, Name(d)) == Some(d.argtype)
  {
    FindsLast(defs, d);
  }

  /** The name before an equals sign, or the whole. */
  lemma {:induction false} NameOf(name: string, text: string)
    requires '=' !in name
    ensures EqualsAt(name) == |name| && EqualsAt(name + "=" + text) == |name|
  {
    if name != "" {
      assert name[0] in name && (name + "=" + text)[1..] == name[1..] + "=" + text;
      NameOf(name[1..], text);
    }
  }

  lemma FindsLong(defs: seq<Def>, d: Def, option: string)
    requires WellFormed(defs) && d in defs && d.longname.Some? && option[..EqualsAt(option)] == d.longname.value
    ensures FirstLong(defs, option) < |defs| && defs[FirstLong(defs, option)] == d
  {
    var k :| 0 <= k < |defs| && defs[k] == d;
    assert Matches(defs[k].longname, option);
    var i := FirstLong(defs, option);
    assert defs[i].longname == defs[k].longname;
  }

  // ---------- One item ----------

  function LongText(d: Def, arg: Text): string {
    (if d.longname.Some? then d.longname.value else "") + if arg.Inline? then "=" + arg.text else ""
  }

  /** The name ends where the argument begins. */
  lemma LongParts(defs: seq<Def>, d: Def, arg: Text)
    requires WellFormed(defs) && d in defs && d.longname.Some?
    ensures var option, eq := LongText(d, arg), EqualsAt(LongText(d, arg));
            && option != "" && option[..eq] == d.longname.value
            && (if arg.Inline? then eq < |option| && option[eq + 1..] == arg.text else eq == |option|)
  {
    var i :| 0 <= i < |defs| && defs[i] == d;
    var name, option := d.longname.value, LongText(d, arg);
    NameOf(name, if arg.Inline? then arg.text else "");
    if arg.Inline? {
      assert option == name + "=" + arg.text && option[|name| + 1..] == arg.text;
    } else {
      assert option == name && option[..|name|] == name;
    }
  }

  lemma ParsesLong(defs: seq<Def>, d: Def, arg: Text, next: Option<string>)
    requires WellFormed(defs) && Good(defs, LongOption(d, arg)) && (arg.Separate? ==> next == Some(arg.text))
    ensures ParseLong(defs, LongText(d, arg), next) == Parsed(Report(d, arg), 1 + |OutText(arg)|, 0)
  {
    hide WellFormed, LongText, FirstLong, EqualsAt;
    LongParts(defs, d, arg);
    FindsLong(defs, d, LongText(d, arg));
  }

  lemma ReadsLong(defs: seq<Def>, d: Def, arg: Text, rest: seq<string>)
    requires WellFormed(defs) && Good(defs, LongOption(d, arg))
    ensures var tokens := Render(LongOption(d, arg)) + rest;
            && IsLong(tokens[0])
            && ParseHead(defs, tokens, 0) == Parsed(Report(d, arg), |Render(LongOption(d, arg))|, 0)
  {
    hide WellFormed, ParseLong, EqualsAt;
    var tokens, option := Render(LongOption(d, arg)) + rest, LongText(d, arg);
    LongParts(defs, d, arg);
    assert tokens[0] == "--" + option && tokens[0][2..] == option;
    ParsesLong(defs, d, arg, Following(tokens));
  }

  /** The cluster's token: a dash, then the letters. */
  lemma ClusterToken(defs: seq<Def>, item: Item)
    requires WellFormed(defs) && item.Cluster? && Good(defs, item)
    ensures var T, n := Render(item)[0], |item.flags|;
            && IsShort(T) && |T| >= n + 1
            && (forall k :: 0 <= k < n ==> T[k + 1] == Name(item.flags[k]))
            && (if item.last.Some? then |T| >= n + 2 && T[n + 1] == Name(item.last.value) && T[n + 2..] == InText(item.arg)
                else |T| == n + 1)
  {
    var T := Render(item)[0];
    assert T == "-" + Letters(item);
  }

  lemma ReadsFlag(defs: seq<Def>, item: Item, k: nat, rest: seq<string>)
    requires WellFormed(defs) && item.Cluster? && Good(defs, item) && k < |item.flags|
    ensures var T := Render(item)[0];
            && IsShort(T) && k + 1 < |T|
            && ParseHead(defs, [T] + rest, k) ==
               Parsed(Report(item.flags[k], Nothing), if k + 2 < |T| then 0 else 1, if k + 2 < |T| then k + 1 else 0)
  {
    hide WellFormed, LastShort;
    ClusterToken(defs, item);
    assert IsFlag(defs, item.flags[k]);
    FindsShort(defs, item.flags[k]);
  }

  lemma ReadsLast(defs: seq<Def>, item: Item, rest: seq<string>)
    requires WellFormed(defs) && item.Cluster? && Good(defs, item) && item.last.Some?
    ensures var T, n := Render(item)[0], |item.flags|;
            && IsShort(T) && n + 1 < |T|
            && ParseHead(defs, [T] + OutText(item.arg) + rest, n) == Parsed(Report(item.last.value, item.arg), 1 + |OutText(item.arg)|, 0)
  {
    hide WellFormed, LastShort;
    ClusterToken(defs, item);
    FindsShort(defs, item.last.value);
    var T, out := Render(item)[0], OutText(item.arg);
    assert ([T] + out + rest)[0] == T;
    if item.arg.Separate? {
      assert Following([T] + out + rest) == Some(item.arg.text);
    }
  }

  /** An option that takes exactly the tokens `A`. */
  lemma WalkOver(defs: seq<Def>, A: seq<string>, rest: seq<string>, sub: nat, event: Event)
    requires A != [] && (IsShort(A[0]) || (IsLong(A[0]) && sub == 0)) && (IsShort(A[0]) ==> sub + 1 < |A[0]|)
    requires ParseHead(defs, A + rest, sub) == Parsed(event, |A|, 0)
    ensures ClusterOpen(A + rest, sub)
    ensures var o := Walk(defs, rest, 0);
            Walk(defs, A + rest, sub) == o.(events := [event] + o.events, taken := A + o.taken)
  {
    hide ParseHead;
    StillOpen([], A + rest, sub);
    assert [] + (A + rest) == A + rest;
    assert (A + rest)[|A|..] == rest && (A + rest)[..|A|] == A;
  }

  /** A flag that is not the last letter of its cluster. */
  lemma WalkInside(defs: seq<Def>, tokens: seq<string>, sub: nat, event: Event)
    requires tokens != [] && IsShort(tokens[0]) && sub + 2 < |tokens[0]|
    requires ParseHead(defs, tokens, sub) == Parsed(event, 0, sub + 1)
    ensures ClusterOpen(tokens, sub) && ClusterOpen(tokens, sub + 1)
    ensures var o := Walk(defs, tokens, sub + 1); Walk(defs, tokens, sub) == o.(events := [event] + o.events)
  {
    hide ParseHead;
    StillOpen([], tokens, sub);
    StillOpen([], tokens, sub + 1);
    assert [] + tokens == tokens && tokens[0..] == tokens && tokens[..0] == [];
    assert [] + Walk(defs, tokens, sub + 1).taken == Walk(defs, tokens, sub + 1).taken;
  }

  /** The reports from the `k`-th letter on. */
  function ReportsFrom(item: Item, k: nat): seq<Event>
    requires item.Cluster? && k <= |item.flags|
  {
    FlagReports(item.flags[k..]) + if item.last.Some? then [Report(item.last.value, item.arg)] else []
  }

  lemma ReportsStep(item: Item, k: nat)
    requires item.Cluster? && k <= |item.flags|
    ensures k < |item.flags| ==> ReportsFrom(item, k) == [Report(item.flags[k], Nothing)] + ReportsFrom(item, k + 1)
    ensures k == |item.flags| ==> ReportsFrom(item, k) == if item.last.Some? then [Report(item.last.value, item.arg)] else []
    ensures Reports(item) == ReportsFrom(item, 0)
  {
    assert item.flags[0..] == item.flags;
    if k < |item.flags| {
      assert item.flags[k..][1..] == item.flags[k + 1..];
    }
  }

  lemma Associate<T>(a: seq<T>, b: seq<T>, c: seq<T>)
    ensures a + (b + c) == a + b + c
  {}

  /** From the `k`-th letter on, a cluster is read to its end, its argument included. */
  lemma {:induction false} WalksCluster(defs: seq<Def>, item: Item, k: nat, rest: seq<string>)
    requires WellFormed(defs) && item.Cluster? && Good(defs, item) && k <= |item.flags| && (k < |item.flags| || item.last.Some?)
    ensures var tokens, o := Render(item) + rest, Walk(defs, rest, 0);
            && ClusterOpen(tokens, k)
            && Walk(defs, tokens, k) == o.(events := ReportsFrom(item, k) + o.events, taken := Render(item) + o.taken)
    decreases |item.flags| - k
  {
    hide WellFormed, ParseHead, Scan, Walk, ReportsFrom, Letters, ClusterOpen;
    var T, R := Render(item)[0], OutText(item.arg) + rest;
    var tokens := Render(item) + rest;
    assert tokens == [T] + R == [T] + OutText(item.arg) + rest;
    ClusterToken(defs, item);
    ReportsStep(item, k);
    StillOpen([], rest, 0);
    assert [] + rest == rest;
    if k == |item.flags| {
      ReadsLast(defs, item, rest);
      WalkOver(defs, Render(item), rest, k, Report(item.last.value, item.arg));
    } else {
      ReadsFlag(defs, item, k, R);
      if k + 2 < |T| {
        WalkInside(defs, tokens, k, Report(item.flags[k], Nothing));
        WalksCluster(defs, item, k + 1, rest);
        Associate([Report(item.flags[k], Nothing)], ReportsFrom(item, k + 1), Walk(defs, rest, 0).events);
      } else {
        ReportsStep(item, k + 1);
        WalkOver(defs, Render(item), rest, k, Report(item.flags[k], Nothing));
      }
    }
  }

  /** One item in front of any tokens. */
  lemma WalksItem(defs: seq<Def>, item: Item, rest: seq<string>)
    requires WellFormed(defs) && Good(defs, item)
    ensures var o := Walk(defs, rest, 0);
            Walk(defs, Render(item) + rest, 0) ==
            if item.Plain? then o.(skipped := [item.text] + o.skipped)
            else o.(events := Reports(item) + o.events, taken := Render(item) + o.taken)
  {
    hide WellFormed, ParseHead, Letters;
    var tokens := Render(item) + rest;
    match item
    case Cluster(flags, last, arg) =>
      WalksCluster(defs, item, 0, rest);
      ReportsStep(item, 0);
    case LongOption(d, arg) =>
      ReadsLong(defs, d, arg, rest);
      WalkOver(defs, Render(item), rest, 0, Report(d, arg));
    case Plain(text) =>
      assert tokens[1..] == rest;
  }

  // ---------- Main results ----------

  /** A command line: the items, then perhaps "--" and anything. */
  function Line(items: seq<Item>, end: Option<seq<string>>): seq<string> {
    RenderAll(items) + if end.Some? then ["--"] + end.value else []
  }

  lemma Totals(items: seq<Item>)
    requires items != []
    ensures items[0].Plain? ==>
              && AllReports(items) == AllReports(items[1..]) && OptionTokens(items) == OptionTokens(items[1..])
              && Plains(items) == [items[0].text] + Plains(items[1..])
    ensures !items[0].Plain? ==>
              && AllReports(items) == Reports(items[0]) + AllReports(items[1..])
              && OptionTokens(items) == Render(items[0]) + OptionTokens(items[1..]) && Plains(items) == Plains(items[1..])
  {
    assert [] + AllReports(items[1..]) == AllReports(items[1..]);
    assert [] + OptionTokens(items[1..]) == OptionTokens(items[1..]) && [] + Plains(items[1..]) == Plains(items[1..]);
  }

  /** Reading a printed line reports each option with its argument, in order, and skips exactly the positionals. */
  lemma {:induction false} ParseUndoesPrint(defs: seq<Def>, items: seq<Item>, end: Option<seq<string>>)
    requires WellFormed(defs) && forall k :: 0 <= k < |items| ==> Good(defs, items[k])
    ensures Walk(defs, Line(items, end), 0) ==
            Outcome(AllReports(items), OptionTokens(items), Plains(items), end.Some?, if end.Some? then end.value else [])
  {
    hide WellFormed, Good, Reports, Render;
    if items == [] {
      WalkEnd(defs, Line(items, end));
    } else {
      ParseUndoesPrint(defs, items[1..], end);
      WalksItem(defs, items[0], Line(items[1..], end));
      Totals(items);
      assert Line(items, end) == Render(items[0]) + Line(items[1..], end);
    }
  }

  lemma Arrived(defs: seq<Def>, s: State, t: State, events: seq<Event>)
    requires s.Valid() && Arrives(defs, s, t, events)
    ensures var o := Walk(defs, s.argv[s.optind..], s.subind);
            events == o.events && t.argv == s.argv[..s.optind] + o.Arranged() && t.optind == s.optind + |o.Front()|
  {
    hide Walk, Outcome.Arranged, Outcome.Front;
  }

  lemma ArrangedParts(F: seq<string>, o: Outcome)
    ensures var front := F + o.taken + if o.dashDash then ["--"] else [];
            |front| == |F| + |o.Front()| && F + o.Arranged() == front + o.skipped + o.tail
  {}

  /** The parser itself, started behind a program name: its reports, its final vector and where it stops. */
  lemma RunUndoesPrint(defs: seq<Def>, program: string, items: seq<Item>, end: Option<seq<string>>)
    requires WellFormed(defs) && forall k :: 0 <= k < |items| ==> Good(defs, items[k])
    ensures var s := State([program] + Line(items, end), 1, 0);
            var front := [program] + OptionTokens(items) + if end.Some? then ["--"] else [];
            && s.Valid()
            && var (t, events) := Run(defs, true, s);
               && events == AllReports(items) && t.optind == |front|
               && t.argv == front + Plains(items) + if end.Some? then end.value else []
  {
    hide WellFormed, Good, Walk, Run, Scan, Line, Arrives, Outcome.Arranged, Outcome.Front;
    ParseUndoesPrint(defs, items, end);
    var s := State([program] + Line(items, end), 1, 0);
    Behind([program], Line(items, end));
    StillOpen([], Line(items, end), 0);
    assert [] + Line(items, end) == Line(items, end);
    RunArranges(defs, s);
    var (t, events) := Run(defs, true, s);
    Arrived(defs, s, t, events);
    var o := Walk(defs, Line(items, end), 0);
    ArrangedParts([program], o);
  }
}
