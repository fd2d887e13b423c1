/**
 The configuration file (src/config.c): config_serialize writes it, config_load reads it line by line.
 What a save and a reload do to the firewall rules and the routes.
 */
module ConfigFile {
  import opened Basics
  import opened Net
  import opened Text
  import FW = Firewall
  import RT = RuleText
  import R = Route
  import T = RouteText

  const LINE_BUF := 512
  const FILE_BUF := 16384

  // ---------------------------------------------------------------- lines

  /** How many characters fgets takes: a line with its newline, or as much as the buffer holds. */
  function FgetsLen(t: string): (n: nat)
    requires t != ""
    ensures 0 < n <= |t|
  {
    var k := RT.IndexOf(t, '\n');
    if k < LINE_BUF - 1 && k < |t| then k + 1
    else if |t| < LINE_BUF then |t|
    else LINE_BUF - 1
  }

  function FileLines(t: string): seq<string>
    decreases |t|
  {
    if t == "" then [] else [t[..FgetsLen(t)]] + FileLines(t[FgetsLen(t)..])
  }

  function TextOf(lines: seq<string>): string {
    if lines == [] then "" else lines[0] + "\n" + TextOf(lines[1..])
  }

  function WithNewlines(lines: seq<string>): seq<string> {
    seq(|lines|, i requires 0 <= i < |lines| => lines[i] + "\n")
  }

  /** A line that fits the buffer of the reader, and is one line. */
  predicate OneLine(l: string) {
    |l| <= LINE_BUF - 2 && Plain(l)
  }

  /** What is written line by line is read line by line. */
  lemma {:induction false} LinesOfText(lines: seq<string>)
    requires forall i :: 0 <= i < |lines| ==> OneLine(lines[i])
    ensures FileLines(TextOf(lines)) == WithNewlines(lines)
  {
    if lines != [] {
      var l, t := lines[0], TextOf(lines);
      LinesOfText(lines[1..]);
      assert OneLine(l) && t[|l|] == '\n' && t[..|l|] == l;
      RT.IndexOfIs(t, '\n', |l|);
      assert t[..|l| + 1] == l + "\n" && t[|l| + 1..] == TextOf(lines[1..]);
      assert WithNewlines(lines) == [l + "\n"] + WithNewlines(lines[1..]);
    }
  }

  /** Characters of one line, and of one C string. */
  predicate Plain(s: string) {
    RT.NoNewline(s) && NUL !in s
  }

  function SkipIndent(s: string): (t: string)
    ensures NUL !in s ==> NUL !in t
  {
    if s != "" && (s[0] == ' ' || s[0] == '\t') then SkipIndent(s[1..]) else s
  }

  function Chopped(s: string, c: char): (t: string)
    ensures NUL !in s ==> NUL !in t
  {
    if s != "" && s[|s| - 1] == c then s[..|s| - 1] else s
  }

  /** What a C string is of the characters: a NUL ends it, and hides the newline behind it. */
  function Cut(s: string): (t: string)
    ensures NUL !in t && (NUL !in s ==> t == s)
  {
    if s == "" || s[0] == NUL then ""
    else
      var t := Cut(s[1..]);
      assert NUL !in s ==> NUL !in s[1..];
      [s[0]] + t
  }

  /** What config_load makes of a line before it looks at it. */
  function Stripped(s: string): (t: string)
    ensures NUL !in t
  {
    SkipIndent(Chopped(Chopped(Cut(s), '\n'), '\r'))
  }

  /** Lines that start with something else than a blank are stripped of their newline only. */
  lemma StrippedLine(l: string)
    requires l != "" && Plain(l) && !Blank(l[0]) && l[|l| - 1] != '\r'
    ensures Stripped(l + "\n") == l
  {
    assert (l + "\n")[..|l|] == l;
  }

  // ---------------------------------------------------------------- reading

  /** %15[^]]. */
  function SectionName(s: string): string {
    var k := RT.IndexOf(s, ']');
    s[..if k > 15 then 15 else k]
  }

  function SkipSlash(s: string): (t: string)
    ensures NUL !in s ==> NUL !in t
  {
    if s != "" && s[0] == '/' then s[1..] else s
  }

  /** parse_firewall_line. */
  function RuleOf(p: string): Option<FW.Rule> {
    RT.Parsed(RT.FileArgv(SkipSlash(SkipIndent(p))))
  }

  /** parse_route_line. */
  function RouteOf(p: string, ifs: seq<Iface>): Option<R.Route> {
    T.ParsedRoute(RT.FileArgv(SkipSlash(SkipIndent(p))), ifs)
  }

  /** The text behind the first "ip ". */
  function AfterIp(p: string): Option<string> {
    if |p| < 3 then None else if p[..3] == "ip " then Some(p[3..]) else AfterIp(p[1..])
  }

  /** parse_filter_line: the old way to write a drop rule. */
  function FilterOf(p: string): Option<FW.Rule> {
    match AfterIp(p)
    case None => None
    case Some(a) =>
      match RT.ParseCidr(a)
      case None => None
      case Some(net) => Some(FW.Rule(FW.Drop, RT.Masked(net.0, net.1), net.1, 0, 0, FW.PROTO_ANY, -1, -1, ""))
  }

  function AddRule(rules: seq<FW.Rule>, r: Option<FW.Rule>): seq<FW.Rule> {
    if r.None? || |rules| >= FW.MAX_RULE then rules else rules + [r.value]
  }

  function AddRoute(routes: seq<R.Route>, r: Option<R.Route>): seq<R.Route> {
    if r.None? then routes else R.Added(routes, r.value.dest, r.value.mask, r.value.gw, r.value.ifindex)
  }

  datatype Load = Load(section: string, rules: seq<FW.Rule>, routes: seq<R.Route>)

  /** One turn of the loop of config_load; the keys of [router] touch neither table. */
  function LoadLine(st: Load, line: string, ifs: seq<Iface>): Load {
    var p := Stripped(line);
    if p == "" || p[0] == '#' then st
    else if p[0] == '[' then st.(section := SectionName(p[1..]))
    else if st.section == "filter" then st.(rules := AddRule(st.rules, FilterOf(p)))
    else if st.section == "firewall" then st.(rules := AddRule(st.rules, RuleOf(p)))
    else if st.section == "route" then st.(routes := AddRoute(st.routes, RouteOf(p, ifs)))
    else st
  }

  function LoadLines(st: Load, lines: seq<string>, ifs: seq<Iface>): Load {
    if lines == [] then st else LoadLine(LoadLines(st, lines[..|lines| - 1], ifs), lines[|lines| - 1], ifs)
  }

  /** config_load of a file that is there: the rules go, the static routes go, the lines come. */
  function Loaded(text: string, routes: seq<R.Route>, ifs: seq<Iface>): Load {
    LoadLines(Load("", [], R.Only(routes, false)), FileLines(text), ifs)
  }

  lemma LoadSnoc(st: Load, ls: seq<string>, l: string, ifs: seq<Iface>)
    ensures LoadLines(st, ls + [l], ifs) == LoadLine(LoadLines(st, ls, ifs), l, ifs)
  {
    assert (ls + [l])[..|ls|] == ls;
    hide LoadLine;
  }

  lemma {:induction false} LoadConcat(st: Load, a: seq<string>, b: seq<string>, ifs: seq<Iface>)
    ensures LoadLines(st, a + b, ifs) == LoadLines(LoadLines(st, a, ifs), b, ifs)
  {
    if b == [] {
      assert a + b == a;
    } else {
      hide LoadLine, LoadLines;
      var c, l := b[..|b| - 1], b[|b| - 1];
      assert a + b == (a + c) + [l] && b == c + [l];
      LoadConcat(st, a, c, ifs);
      LoadSnoc(st, a + c, l, ifs);
      LoadSnoc(LoadLines(st, a, ifs), c, l, ifs);
    }
  }

  // ---------------------------------------------------------------- writing

  const ROUTER_HEAD := ["[router]"]
  const FILTER_HEAD := ["", "[filter]", REMARK]
  const FIREWALL_HEAD := ["", "[firewall]"]
  const ROUTE_HEAD := ["", "[route]"]

  /** The remark of the [filter] section, byte for byte: seven characters of it are three bytes each. */
  const REMARK := "# \U{E6}\U{97}\U{A7}\U{E6}\U{A0}\U{BC}\U{E5}\U{BC}\U{8F}\U{E5}\U{85}\U{BC}\U{E5}\U{AE}\U{B9}\U{E6}\U{AE}\U{B5}\U{EF}\U{BC}\U{9A}" + "drop ip X"

  function RuleLines(rules: seq<FW.Rule>): (ls: seq<string>)
    ensures |ls| == |rules|
  {
    seq(|rules|, i requires 0 <= i < |rules| => RT.RuleLine(rules[i]))
  }

  function RouteLines(routes: seq<R.Route>, ifs: seq<Iface>, clz0: int): (ls: seq<string>)
    ensures |ls| == |routes|
  {
    seq(|routes|, i requires 0 <= i < |routes| => T.RouteLine(routes[i], ifs, clz0))
  }

  /** The lines of config_serialize; `keys` are those of [router]. */
  function SavedLines(keys: seq<string>, rules: seq<FW.Rule>, routes: seq<R.Route>, ifs: seq<Iface>, clz0: int): seq<string> {
    ROUTER_HEAD + keys + (FILTER_HEAD + FIREWALL_HEAD) + RuleLines(rules) + ROUTE_HEAD + RouteLines(R.Only(routes, true), ifs, clz0)
  }

  /** What the snprintfs of config_serialize print, call by call. */
  function Prints(keys: seq<string>, rules: seq<FW.Rule>, routes: seq<R.Route>, ifs: seq<Iface>, clz0: int): seq<string> {
    [TextOf(ROUTER_HEAD)] + WithNewlines(keys) + [TextOf(FILTER_HEAD), TextOf(FIREWALL_HEAD)] + WithNewlines(RuleLines(rules))
    + [TextOf(ROUTE_HEAD)] + WithNewlines(RouteLines(R.Only(routes, true), ifs, clz0))
  }

  /**
   A buffer while it is printed to: all that was printed, whether it went in or not, and whether a print began
   behind the end. snprintf is told how much room is left as an unsigned number, so that such a print takes
   the room for unlimited and writes outside the buffer.
   */
  datatype Out = Out(text: string, wild: bool)

  function Print(o: Out, s: string, size: nat): Out {
    Out(o.text + s, o.wild || |o.text| > size)
  }

  function PrintAll(prints: seq<string>, size: nat): Out {
    if prints == [] then Out("", false) else Print(PrintAll(prints[..|prints| - 1], size), prints[|prints| - 1], size)
  }

  /** The text, or -1, or bytes outside the buffer. */
  datatype Written = Text(text: string) | Refused | Overrun

  function WrittenTo(o: Out, size: nat): Written {
    if o.wild then Overrun else if |o.text| < size then Text(o.text) else Refused
  }

  /** config_serialize into a buffer of so many bytes. */
  function Serialized(keys: seq<string>, rules: seq<FW.Rule>, routes: seq<R.Route>, ifs: seq<Iface>, clz0: int, size: nat): Written {
    WrittenTo(PrintAll(Prints(keys, rules, routes, ifs, clz0), size), size)
  }

  /** What config_save gets. */
  function Saved(keys: seq<string>, rules: seq<FW.Rule>, routes: seq<R.Route>, ifs: seq<Iface>, clz0: int): Written {
    Serialized(keys, rules, routes, ifs, clz0, FILE_BUF)
  }

  function Joined(prints: seq<string>): string {
    if prints == [] then "" else Joined(prints[..|prints| - 1]) + prints[|prints| - 1]
  }

  lemma {:induction false} JoinedConcat(a: seq<string>, b: seq<string>)
    ensures Joined(a + b) == Joined(a) + Joined(b)
  {
    if b == [] {
      assert a + b == a && Joined(a) + "" == Joined(a);
    } else {
      var c, x := b[..|b| - 1], b[|b| - 1];
      assert (a + b)[..|a + b| - 1] == a + c;
      JoinedConcat(a, c);
      assert Joined(a) + (Joined(c) + x) == Joined(a) + Joined(c) + x;
    }
  }

  lemma {:induction false} PrintedText(prints: seq<string>, size: nat)
    ensures PrintAll(prints, size).text == Joined(prints)
    ensures PrintAll(prints, size).wild <==> prints != [] && |Joined(prints[..|prints| - 1])| > size
  {
    if prints != [] {
      PrintedText(prints[..|prints| - 1], size);
    }
  }

  /**
   Exactly when the outcome is which, by the length of the whole text and of the last print: it fits; only the
   last print passes the end; or an earlier one does, and bytes go outside the buffer.
   */
  lemma WrittenIff(keys: seq<string>, rules: seq<FW.Rule>, routes: seq<R.Route>, ifs: seq<Iface>, clz0: int, size: nat)
    ensures var t, ps := TextOf(SavedLines(keys, rules, routes, ifs, clz0)), Prints(keys, rules, routes, ifs, clz0);
            var last := |ps[|ps| - 1]|;
            var w := Serialized(keys, rules, routes, ifs, clz0, size);
            && last <= |t| && (w == Text(t) <==> |t| < size) && (w == Refused <==> |t| - last <= size <= |t|)
            && (w == Overrun <==> |t| - last > size)
  {
    hide RuleLines, RouteLines, SavedLines, TextOf, R.Only;
    var ps := Prints(keys, rules, routes, ifs, clz0);
    PrintsAreText(keys, rules, routes, ifs, clz0);
    PrintedText(ps, size);
    hide Prints;
    assert Joined(ps) == Joined(ps[..|ps| - 1]) + ps[|ps| - 1];
  }

  lemma {:induction false} LinesJoin(ls: seq<string>)
    ensures Joined(WithNewlines(ls)) == TextOf(ls)
  {
    if ls == [] {
      assert WithNewlines(ls) == [];
    } else {
      var l, rest := ls[0], ls[1..];
      LinesJoin(rest);
      assert WithNewlines(ls) == [l + "\n"] + WithNewlines(rest);
      JoinedConcat([l + "\n"], WithNewlines(rest));
      assert [l + "\n"][..0] == [] && "" + (l + "\n") == l + "\n";
      assert Joined([l + "\n"]) == l + "\n";
    }
  }

  lemma {:induction false} TextJoins(a: seq<string>, b: seq<string>)
    ensures TextOf(a + b) == TextOf(a) + TextOf(b)
  {
    if a == [] {
      assert a + b == b;
    } else {
      assert (a + b)[1..] == a[1..] + b;
      TextJoins(a[1..], b);
      assert a[0] + "\n" + (TextOf(a[1..]) + TextOf(b)) == a[0] + "\n" + TextOf(a[1..]) + TextOf(b);
    }
  }

  /** Print by print and line by line it is the same text. */
  lemma PrintsAreText(keys: seq<string>, rules: seq<FW.Rule>, routes: seq<R.Route>, ifs: seq<Iface>, clz0: int)
    ensures Prints(keys, rules, routes, ifs, clz0) != []
    ensures Joined(Prints(keys, rules, routes, ifs, clz0)) == TextOf(SavedLines(keys, rules, routes, ifs, clz0))
  {
    hide TextOf, Joined, WithNewlines, RuleLines, RouteLines, R.Only;
    var q, r := RuleLines(rules), RouteLines(R.Only(routes, true), ifs, clz0);
    var p1, p3, p5 := [TextOf(ROUTER_HEAD)], [TextOf(FILTER_HEAD), TextOf(FIREWALL_HEAD)], [TextOf(ROUTE_HEAD)];
    var l1, l3, l5 := ROUTER_HEAD, FILTER_HEAD + FIREWALL_HEAD, ROUTE_HEAD;
    FixedPrints();
    LinesJoin(keys);
    LinesJoin(q);
    LinesJoin(r);
    var k, x, y := WithNewlines(keys), WithNewlines(q), WithNewlines(r);
    assert Prints(keys, rules, routes, ifs, clz0) == p1 + k + p3 + x + p5 + y;
    assert SavedLines(keys, rules, routes, ifs, clz0) == l1 + keys + l3 + q + l5 + r;
    SixJoined(p1, k, p3, x, p5, y);
    SixTexts(l1, keys, l3, q, l5, r);
  }

  lemma SixJoined(a: seq<string>, b: seq<string>, c: seq<string>, d: seq<string>, e: seq<string>, f: seq<string>)
    ensures Joined(a + b + c + d + e + f) == Joined(a) + Joined(b) + Joined(c) + Joined(d) + Joined(e) + Joined(f)
  {
    hide Joined;
    JoinedConcat(a, b);
    JoinedConcat(a + b, c);
    JoinedConcat(a + b + c, d);
    JoinedConcat(a + b + c + d, e);
    JoinedConcat(a + b + c + d + e, f);
  }

  lemma SixTexts(a: seq<string>, b: seq<string>, c: seq<string>, d: seq<string>, e: seq<string>, f: seq<string>)
    ensures TextOf(a + b + c + d + e + f) == TextOf(a) + TextOf(b) + TextOf(c) + TextOf(d) + TextOf(e) + TextOf(f)
  {
    hide TextOf;
    TextJoins(a, b);
    TextJoins(a + b, c);
    TextJoins(a + b + c, d);
    TextJoins(a + b + c + d, e);
    TextJoins(a + b + c + d + e, f);
  }

  lemma FixedPrints()
    ensures Joined([TextOf(ROUTER_HEAD)]) == TextOf(ROUTER_HEAD) && Joined([TextOf(ROUTE_HEAD)]) == TextOf(ROUTE_HEAD)
    ensures Joined([TextOf(FILTER_HEAD), TextOf(FIREWALL_HEAD)]) == TextOf(FILTER_HEAD + FIREWALL_HEAD)
  {
    hide Joined, TextOf, FILTER_HEAD, FIREWALL_HEAD, ROUTER_HEAD, ROUTE_HEAD;
    var a, b := TextOf(FILTER_HEAD), TextOf(FIREWALL_HEAD);
    OneJoined(TextOf(ROUTER_HEAD));
    OneJoined(TextOf(ROUTE_HEAD));
    OneJoined(a);
    OneJoined(b);
    JoinedConcat([a], [b]);
    assert [a] + [b] == [a, b];
    TextJoins(FILTER_HEAD, FIREWALL_HEAD);
  }

  lemma HeadSizes()
    ensures |TextOf(ROUTER_HEAD)| == 9 && |TextOf(FILTER_HEAD)| == 43 && |TextOf(FIREWALL_HEAD)| == 12 && |TextOf(ROUTE_HEAD)| == 9
  {
    assert |REMARK| == 32;
    OneText("");
    OneText("[router]");
    OneText("[filter]");
    OneText("[firewall]");
    OneText("[route]");
    OneText(REMARK);
    hide TextOf;
    TextJoins([""], ["[filter]"]);
    TextJoins([""] + ["[filter]"], [REMARK]);
    TextJoins([""], ["[firewall]"]);
    TextJoins([""], ["[route]"]);
    hide REMARK;
    assert [""] + ["[filter]"] + [REMARK] == FILTER_HEAD && [""] + ["[firewall]"] == FIREWALL_HEAD && [""] + ["[route]"] == ROUTE_HEAD;
  }

  lemma OneJoined(s: string)
    ensures Joined([s]) == s
  {
    assert [s][..0] == [] && "" + s == s;
  }

  lemma OneText(l: string)
    ensures TextOf([l]) == l + "\n"
  {
    assert [l][1..] == [] && l + "\n" + "" == l + "\n";
  }

  // ---------------------------------------------------------------- what always fits, and what does not

  lemma {:induction false} TextAtMost(ls: seq<string>, k: nat)
    requires forall i :: 0 <= i < |ls| ==> |ls[i]| < k
    ensures |TextOf(ls)| <= k * |ls|
  {
    if ls != [] {
      TextAtMost(ls[1..], k);
      assert k * |ls| == k + k * |ls[1..]|;
    }
  }

  lemma {:induction false} TextAtLeast(ls: seq<string>, k: nat)
    requires forall i :: 0 <= i < |ls| ==> |ls[i]| + 1 >= k
    ensures |TextOf(ls)| >= k * |ls|
  {
    if ls != [] {
      TextAtLeast(ls[1..], k);
      assert k * |ls| == k + k * |ls[1..]|;
    }
  }

  /** Every rule takes at most 156 bytes and every static route at most 68, and the headers take 73. */
  lemma TablesFit(keys: seq<string>, rules: seq<FW.Rule>, routes: seq<R.Route>, ifs: seq<Iface>, clz0: int, size: nat)
    requires Setting(keys, ifs, clz0) && RulesOk(rules)
    requires |TextOf(keys)| + 156 * |rules| + 68 * |R.Only(routes, true)| + 73 < size
    ensures Serialized(keys, rules, routes, ifs, clz0, size) == Text(TextOf(SavedLines(keys, rules, routes, ifs, clz0)))
  {
    var st := R.Only(routes, true);
    forall i | 0 <= i < |rules| ensures |RuleLines(rules)[i]| < 156 { RT.RuleLineFits(rules[i]); }
    forall i | 0 <= i < |st| ensures |RouteLines(st, ifs, clz0)[i]| < 68 { T.RouteFits(st[i], ifs, clz0); }
    hide RT.RuleLine, T.RouteLine, RuleLines, RouteLines, R.Only, TextOf, KeysOk, Prints, T.RealNames, RT.RuleOk;
    TextAtMost(RuleLines(rules), 156);
    TextAtMost(RouteLines(st, ifs, clz0), 68);
    HeadSizes();
    TextJoins(FILTER_HEAD, FIREWALL_HEAD);
    SixTexts(ROUTER_HEAD, keys, FILTER_HEAD + FIREWALL_HEAD, RuleLines(rules), ROUTE_HEAD, RouteLines(st, ifs, clz0));
    WrittenIff(keys, rules, routes, ifs, clz0, size);
  }

  /** What config_save's buffer of 16384 bytes always takes: 75 rules, with keys as long as they come and the routes full. */
  lemma SeventyFiveRulesFit(keys: seq<string>, rules: seq<FW.Rule>, routes: seq<R.Route>, ifs: seq<Iface>, clz0: int)
    requires Setting(keys, ifs, clz0) && RulesOk(rules)
    requires |TextOf(keys)| <= 171 && |rules| <= 75 && |routes| <= R.MAX_ROUTE
    ensures Saved(keys, rules, routes, ifs, clz0).Text?
  {
    OnlySplits(routes);
    hide R.Only, TextOf, KeysOk, Serialized, SavedLines, T.RealNames;
    TablesFit(keys, rules, routes, ifs, clz0, FILE_BUF);
  }

  /** Rules that fill the buffer make the print behind them begin outside it. */
  lemma RulesOverrun(keys: seq<string>, rules: seq<FW.Rule>, routes: seq<R.Route>, ifs: seq<Iface>, clz0: int, size: nat)
    requires |TextOf(RuleLines(rules))| > size
    ensures Serialized(keys, rules, routes, ifs, clz0, size) == Overrun
  {
    hide RuleLines, RouteLines, R.Only, TextOf, WithNewlines;
    var ps, w := Prints(keys, rules, routes, ifs, clz0), WithNewlines(RuleLines(rules));
    var x := [TextOf(ROUTER_HEAD)] + WithNewlines(keys) + [TextOf(FILTER_HEAD), TextOf(FIREWALL_HEAD)];
    var y := [TextOf(ROUTE_HEAD)] + WithNewlines(RouteLines(R.Only(routes, true), ifs, clz0));
    assert ps == x + w + y;
    hide Prints, Joined;
    var z := y[..|y| - 1];
    assert ps[..|ps| - 1] == x + w + z;
    PrintedText(ps, size);
    JoinedConcat(x, w);
    JoinedConcat(x + w, z);
    LinesJoin(RuleLines(rules));
  }

  // ---------------------------------------------------------------- what can be written

  /** A line the [router] section swallows. */
  predicate IsKey(l: string) {
    OneLine(l) && l != "" && !Blank(l[0]) && l[0] != '[' && l[0] != '#' && l[|l| - 1] != '\r'
  }

  predicate KeysOk(keys: seq<string>) {
    forall i :: 0 <= i < |keys| ==> IsKey(keys[i])
  }

  /** Rules the router can have: accepted ones, entered on one line. */
  ghost predicate RulesOk(rules: seq<FW.Rule>) {
    |rules| <= FW.MAX_RULE && forall i :: 0 <= i < |rules| ==> RT.RuleOk(rules[i]) && Plain(rules[i].keyword)
  }

  predicate BlankFreeKeywords(rules: seq<FW.Rule>) {
    forall i :: 0 <= i < |rules| ==> BlankFree(rules[i].keyword)
  }

  ghost predicate StaticsSavable(routes: seq<R.Route>, ifs: seq<Iface>, clz0: int) {
    forall i :: 0 <= i < |routes| && routes[i].isStatic ==> T.Savable(routes[i], ifs, clz0)
  }

  /** What does not depend on either table. */
  predicate Setting(keys: seq<string>, ifs: seq<Iface>, clz0: int) {
    KeysOk(keys) && T.RealNames(ifs) && T.IsInt(clz0)
  }

  // ---------------------------------------------------------------- the sections one by one

  /** What config_load adds for a printed rule: the rule itself if and only if its keyword has no blank. */
  lemma RuleComesBackIff(r: FW.Rule)
    requires RT.RuleOk(r)
    ensures RuleOf(RT.RuleLine(r)) == Some(RT.Normal(r)) <==> BlankFree(r.keyword)
  {
    hide RT.RuleLine, RT.RuleOk, RT.Parsed, RT.FileArgv, RT.Normal, SkipIndent, SkipSlash;
    RT.RuleSurvivesIff(r);
    RuleLineStart(r);
    PlainStart(RT.RuleLine(r));
  }

  lemma PlainStart(l: string)
    requires l != "" && !Blank(l[0]) && l[0] != '/'
    ensures SkipIndent(l) == l && SkipSlash(l) == l
  {}

  lemma RuleLineIsPlain(r: FW.Rule)
    requires RT.RuleOk(r) && Plain(r.keyword)
    ensures OneLine(RT.RuleLine(r))
  {
    RT.RuleLineFits(r);
    RT.RuleLineNulFree(r);
    hide RT.RuleLine, RT.RuleOk;
  }

  lemma RouteLineIsPlain(r: R.Route, ifs: seq<Iface>, clz0: int)
    requires T.RealNames(ifs) && T.IsInt(clz0)
    ensures OneLine(T.RouteLine(r, ifs, clz0))
  {
    T.RouteFits(r, ifs, clz0);
    T.RouteLineNulFree(r, ifs, clz0);
    hide T.RouteLine;
  }

  /** Whatever the parser makes of a printed rule, it adds it or not, and touches nothing else. */
  lemma AnyRuleLineLoads(st: Load, r: FW.Rule, ifs: seq<Iface>)
    requires st.section == "firewall" && RT.RuleOk(r) && Plain(r.keyword)
    ensures LoadLine(st, RT.RuleLine(r) + "\n", ifs) == st.(rules := AddRule(st.rules, RuleOf(RT.RuleLine(r))))
  {
    hide RT.RuleLine, RT.RuleOk, RuleOf, Stripped;
    RuleLineIsPlain(r);
    RuleLineStart(r);
    RT.RuleLineEnds(r);
    StrippedLine(RT.RuleLine(r));
  }

  lemma RuleLineStart(r: FW.Rule)
    ensures RT.RuleLine(r) != "" && (RT.RuleLine(r)[0] == 'd' || RT.RuleLine(r)[0] == 'a')
  {
    LineStart(RT.RuleWords(r));
    hide RT.IpWords, RT.TailWords, Line;
  }

  lemma LineStart(ws: seq<string>)
    requires ws != [] && ws[0] != ""
    ensures Line(ws) != "" && Line(ws)[0] == ws[0][0]
  {}

  /** Whatever the parser makes of a printed route, it adds it or not, and touches nothing else. */
  lemma AnyRouteLineLoads(st: Load, r: R.Route, ifs: seq<Iface>, clz0: int)
    requires st.section == "route" && T.RealNames(ifs) && T.IsInt(clz0)
    ensures var l := T.RouteLine(r, ifs, clz0);
            LoadLine(st, l + "\n", ifs) == st.(routes := AddRoute(st.routes, T.ParsedRoute(RT.FileArgv(l), ifs)))
  {
    hide *;
    var l := T.RouteLine(r, ifs, clz0);
    RouteLineIsPlain(r, ifs, clz0);
    RouteLineStart(r, ifs, clz0);
    T.RouteLineEnds(r, ifs, clz0);
    NoBlankEnd(l);
    DigitIsPlain(l);
    LineIsPlain(l);
    StrippedLine(l);
    RouteSectionLine(st, l, ifs);
  }

  lemma NoBlankEnd(l: string)
    requires l != "" && !Blank(l[|l| - 1])
    ensures l[|l| - 1] != '\r'
  {}

  lemma LineIsPlain(l: string)
    requires OneLine(l)
    ensures Plain(l)
  {}

  lemma DigitIsPlain(l: string)
    requires l != "" && Digit(l[0])
    ensures !Blank(l[0]) && l[0] != '[' && l[0] != '#' && SkipIndent(l) == l && SkipSlash(l) == l
  {}

  lemma RouteSectionLine(st: Load, l: string, ifs: seq<Iface>)
    requires st.section == "route" && Stripped(l + "\n") == l && l != "" && l[0] != '[' && l[0] != '#'
    requires SkipIndent(l) == l && SkipSlash(l) == l
    ensures LoadLine(st, l + "\n", ifs) == st.(routes := AddRoute(st.routes, T.ParsedRoute(RT.FileArgv(l), ifs)))
  {
    hide Stripped, SkipIndent, SkipSlash, AddRoute, T.ParsedRoute, RT.FileArgv;
  }

  lemma RouteLineStart(r: R.Route, ifs: seq<Iface>, clz0: int)
    ensures T.RouteLine(r, ifs, clz0) != "" && Digit(T.RouteLine(r, ifs, clz0)[0])
  {
    T.RouteShape(r, ifs, clz0);
    LineStart(T.RouteWords(r, ifs, clz0));
    CidrStart(r.dest, PrefixLen(r.mask, clz0));
    hide T.RouteWords, RT.Cidr, Line, PrefixLen;
  }

  lemma CidrStart(ip: Ip, len: int)
    ensures RT.Cidr(ip, len) != "" && Digit(RT.Cidr(ip, len)[0])
  {
    hide ToBytes32, DecInt;
    assert Digit(Dec(ToBytes32(ip)[0])[0]);
    hide Dec;
  }

  // ---------------------------------------------------------------- the whole file

  function Normals(rules: seq<FW.Rule>): (ns: seq<FW.Rule>)
    ensures |ns| == |rules|
  {
    seq(|rules|, i requires 0 <= i < |rules| => RT.Normal(rules[i]))
  }

  /** What the parser makes of the printed rules, those that it takes. */
  function Reread(rules: seq<FW.Rule>): (rs: seq<FW.Rule>)
    ensures |rs| <= |rules|
  {
    if rules == [] then []
    else
      var r := RuleOf(RT.RuleLine(rules[|rules| - 1]));
      Reread(rules[..|rules| - 1]) + if r.None? then [] else [r.value]
  }

  lemma RereadGrows(t: seq<FW.Rule>, r: FW.Rule)
    ensures var x := RuleOf(RT.RuleLine(r)); Reread(t + [r]) == Reread(t) + if x.None? then [] else [x.value]
  {
    assert (t + [r])[..|t|] == t;
    hide RuleOf, RT.RuleLine;
  }

  lemma {:induction false} RulesLoad(st: Load, rules: seq<FW.Rule>, ifs: seq<Iface>)
    requires st.section == "firewall" && |st.rules| + |rules| <= FW.MAX_RULE
    requires forall i :: 0 <= i < |rules| ==> RT.RuleOk(rules[i]) && Plain(rules[i].keyword)
    ensures LoadLines(st, WithNewlines(RuleLines(rules)), ifs) == st.(rules := st.rules + Reread(rules))
  {
    hide *;
    if rules == [] {
      NoRulesLoad(st, rules, ifs);
    } else {
      var t, r := rules[..|rules| - 1], rules[|rules| - 1];
      RulesLoad(st, t, ifs);
      RuleLinesGrow(t, r);
      RereadGrows(t, r);
      assert rules == t + [r];
      LoadSnoc(st, WithNewlines(RuleLines(t)), RT.RuleLine(r) + "\n", ifs);
      AnyRuleLineLoads(st.(rules := st.rules + Reread(t)), r, ifs);
      OneRuleAdded(st.rules, Reread(t), RuleOf(RT.RuleLine(r)));
    }
  }

  lemma OneRuleAdded(a: seq<FW.Rule>, b: seq<FW.Rule>, r: Option<FW.Rule>)
    requires |a| + |b| < FW.MAX_RULE
    ensures AddRule(a + b, r) == a + (b + if r.None? then [] else [r.value])
  {}

  lemma NoRulesLoad(st: Load, rules: seq<FW.Rule>, ifs: seq<Iface>)
    requires rules == []
    ensures LoadLines(st, WithNewlines(RuleLines(rules)), ifs) == st.(rules := st.rules + Reread(rules))
  {
    assert WithNewlines(RuleLines(rules)) == [] && st.rules + [] == st.rules;
  }

  /** All rules come back, each as it was, if and only if no keyword has a blank: a line is one rule at most. */
  lemma {:induction false} RulesComeBackIff(rules: seq<FW.Rule>)
    requires forall i :: 0 <= i < |rules| ==> RT.RuleOk(rules[i])
    ensures Reread(rules) == Normals(rules) <==> BlankFreeKeywords(rules)
  {
    hide RuleOf, RT.RuleLine, RT.Normal, BlankFree, RT.RuleOk;
    if rules != [] {
      var t, r := rules[..|rules| - 1], rules[|rules| - 1];
      RulesComeBackIff(t);
      RuleComesBackIff(r);
      assert rules == t + [r];
      RereadGrows(t, r);
      RuleLinesGrow(t, r);
      BlankFreeGrows(t, r);
      hide Reread, Normals, BlankFreeKeywords;
      SameEnd(Reread(t), RuleOf(RT.RuleLine(r)), Normals(t), RT.Normal(r));
    }
  }

  lemma BlankFreeGrows(t: seq<FW.Rule>, r: FW.Rule)
    ensures BlankFreeKeywords(t + [r]) <==> BlankFreeKeywords(t) && BlankFree(r.keyword)
  {
    hide BlankFree;
    var s := t + [r];
    assert s[|t|] == r && forall i :: 0 <= i < |t| ==> s[i] == t[i];
  }

  lemma SameEnd(a: seq<FW.Rule>, x: Option<FW.Rule>, b: seq<FW.Rule>, y: FW.Rule)
    requires |a| <= |b|
    ensures a + (if x.None? then [] else [x.value]) == b + [y] <==> a == b && x == Some(y)
  {
    var c, d := a + (if x.None? then [] else [x.value]), b + [y];
    if c == d {
      assert |c| == |d| && c[|c| - 1] == d[|d| - 1] && c[..|b|] == b;
      assert a == c[..|a|];
    }
  }

  lemma RuleLinesGrow(t: seq<FW.Rule>, r: FW.Rule)
    ensures WithNewlines(RuleLines(t + [r])) == WithNewlines(RuleLines(t)) + [RT.RuleLine(r) + "\n"]
    ensures Normals(t + [r]) == Normals(t) + [RT.Normal(r)]
  {
    hide RT.RuleLine, RT.Normal;
  }

  function AddRoutes(routes: seq<R.Route>, rs: seq<R.Route>): seq<R.Route> {
    if rs == [] then routes else AddRoute(AddRoutes(routes, rs[..|rs| - 1]), Some(rs[|rs| - 1]))
  }

  /** What the parser makes of the printed routes, those that it takes. */
  function RereadRoutes(rs: seq<R.Route>, ifs: seq<Iface>, clz0: int): (q: seq<R.Route>)
    ensures |q| <= |rs|
  {
    if rs == [] then []
    else
      var r := T.ParsedRoute(RT.FileArgv(T.RouteLine(rs[|rs| - 1], ifs, clz0)), ifs);
      RereadRoutes(rs[..|rs| - 1], ifs, clz0) + if r.None? then [] else [r.value]
  }

  lemma AddRoutesSnoc(routes: seq<R.Route>, rs: seq<R.Route>, r: Option<R.Route>)
    ensures AddRoute(AddRoutes(routes, rs), r) == AddRoutes(routes, rs + if r.None? then [] else [r.value])
  {
    hide R.Added;
    if r.Some? {
      assert (rs + [r.value])[..|rs|] == rs;
    } else {
      assert rs + [] == rs;
    }
  }

  lemma NoRoutesLoad(st: Load, rs: seq<R.Route>, ifs: seq<Iface>, clz0: int)
    requires rs == []
    ensures LoadLines(st, WithNewlines(RouteLines(rs, ifs, clz0)), ifs) == st.(routes := AddRoutes(st.routes, RereadRoutes(rs, ifs, clz0)))
  {
    assert WithNewlines(RouteLines(rs, ifs, clz0)) == [];
  }

  lemma RouteLinesGrow(t: seq<R.Route>, r: R.Route, ifs: seq<Iface>, clz0: int)
    ensures WithNewlines(RouteLines(t + [r], ifs, clz0)) == WithNewlines(RouteLines(t, ifs, clz0)) + [T.RouteLine(r, ifs, clz0) + "\n"]
    ensures var x := T.ParsedRoute(RT.FileArgv(T.RouteLine(r, ifs, clz0)), ifs);
            RereadRoutes(t + [r], ifs, clz0) == RereadRoutes(t, ifs, clz0) + if x.None? then [] else [x.value]
  {
    hide T.RouteLine, T.ParsedRoute, RT.FileArgv;
    assert (t + [r])[..|t|] == t;
  }

  lemma {:induction false} RoutesLoad(st: Load, rs: seq<R.Route>, ifs: seq<Iface>, clz0: int)
    requires st.section == "route" && T.RealNames(ifs) && T.IsInt(clz0)
    ensures LoadLines(st, WithNewlines(RouteLines(rs, ifs, clz0)), ifs) == st.(routes := AddRoutes(st.routes, RereadRoutes(rs, ifs, clz0)))
  {
    hide *;
    if rs == [] {
      NoRoutesLoad(st, rs, ifs, clz0);
    } else {
      var t, r := rs[..|rs| - 1], rs[|rs| - 1];
      RoutesLoad(st, t, ifs, clz0);
      RouteLinesGrow(t, r, ifs, clz0);
      assert rs == t + [r];
      LoadSnoc(st, WithNewlines(RouteLines(t, ifs, clz0)), T.RouteLine(r, ifs, clz0) + "\n", ifs);
      var before := RereadRoutes(t, ifs, clz0);
      AnyRouteLineLoads(st.(routes := AddRoutes(st.routes, before)), r, ifs, clz0);
      AddRoutesSnoc(st.routes, before, T.ParsedRoute(RT.FileArgv(T.RouteLine(r, ifs, clz0)), ifs));
    }
  }

  lemma {:induction false} SavableComeBack(rs: seq<R.Route>, ifs: seq<Iface>, clz0: int)
    requires T.RealNames(ifs) && T.IsInt(clz0) && forall i :: 0 <= i < |rs| ==> T.Savable(rs[i], ifs, clz0)
    ensures RereadRoutes(rs, ifs, clz0) == rs
  {
    hide T.ParsedRoute, RT.FileArgv, T.RouteLine, T.Savable, T.RealNames;
    if rs != [] {
      SavableComeBack(rs[..|rs| - 1], ifs, clz0);
      T.RouteRoundTrip(rs[|rs| - 1], ifs, clz0);
    }
  }

  /** The [route] section leaves the rules alone, whatever its routes are. */
  lemma {:induction false} RoutesLeaveRules(st: Load, rs: seq<R.Route>, ifs: seq<Iface>, clz0: int)
    requires st.section == "route" && T.RealNames(ifs) && T.IsInt(clz0)
    ensures var q := LoadLines(st, WithNewlines(RouteLines(rs, ifs, clz0)), ifs); q.rules == st.rules && q.section == "route"
  {
    var ls := WithNewlines(RouteLines(rs, ifs, clz0));
    if rs == [] {
      assert ls == [];
    } else {
      var n := |rs| - 1;
      hide LoadLine, T.RouteLine, T.RealNames, AddRoute;
      RoutesLeaveRules(st, rs[..n], ifs, clz0);
      assert ls[..n] == WithNewlines(RouteLines(rs[..n], ifs, clz0)) && ls[n] == T.RouteLine(rs[n], ifs, clz0) + "\n";
      AnyRouteLineLoads(LoadLines(st, ls[..n], ifs), rs[n], ifs, clz0);
    }
  }

  /** The [firewall] section leaves the routes alone, whatever its rules are. */
  lemma {:induction false} RulesLeaveRoutes(st: Load, rules: seq<FW.Rule>, ifs: seq<Iface>)
    requires st.section == "firewall" && forall i :: 0 <= i < |rules| ==> RT.RuleOk(rules[i]) && Plain(rules[i].keyword)
    ensures var q := LoadLines(st, WithNewlines(RuleLines(rules)), ifs); q.routes == st.routes && q.section == "firewall"
  {
    var ls := WithNewlines(RuleLines(rules));
    if rules == [] {
      assert ls == [];
    } else {
      var n := |rules| - 1;
      hide LoadLine, RT.RuleLine, RT.RuleOk, Plain, AddRule;
      RulesLeaveRoutes(st, rules[..n], ifs);
      assert ls[..n] == WithNewlines(RuleLines(rules[..n])) && ls[n] == RT.RuleLine(rules[n]) + "\n";
      AnyRuleLineLoads(LoadLines(st, ls[..n], ifs), rules[n], ifs);
    }
  }

  lemma KeyLoads(st: Load, key: string, ifs: seq<Iface>)
    requires st.section == "router" && IsKey(key)
    ensures LoadLine(st, key + "\n", ifs) == st
  {
    hide Stripped, FilterOf, RuleOf, RouteOf, SectionName;
    StrippedLine(key);
  }

  lemma {:induction false} KeysLoad(st: Load, keys: seq<string>, ifs: seq<Iface>)
    requires st.section == "router" && forall i :: 0 <= i < |keys| ==> IsKey(keys[i])
    ensures LoadLines(st, WithNewlines(keys), ifs) == st
  {
    hide IsKey, LoadLine;
    if keys != [] {
      var n := |keys| - 1;
      KeysLoad(st, keys[..n], ifs);
      assert WithNewlines(keys)[..n] == WithNewlines(keys[..n]);
      KeyLoads(st, keys[n], ifs);
    }
  }

  lemma NameIsPlain(name: string)
    requires name == "router" || name == "filter" || name == "firewall" || name == "route"
    ensures RT.NoNewline("[" + name + "]") && ']' !in name && |name| <= 15
  {
    assert RT.NoNewline("router") && RT.NoNewline("filter") && RT.NoNewline("firewall") && RT.NoNewline("route");
    assert ']' !in "router" && ']' !in "filter" && ']' !in "firewall" && ']' !in "route";
    var l := "[" + name + "]";
    assert forall i :: 0 < i <= |name| ==> l[i] == name[i - 1];
  }

  lemma SectionNameIs(name: string)
    requires ']' !in name && |name| <= 15
    ensures SectionName(name + "]") == name
  {
    RT.IndexOfIs(name + "]", ']', |name|);
    assert (name + "]")[..|name|] == name;
  }

  lemma SectionLoads(st: Load, line: string, p: string, ifs: seq<Iface>)
    requires Stripped(line) == p && p != "" && p[0] == '['
    ensures LoadLine(st, line, ifs) == st.(section := SectionName(p[1..]))
  {
    hide Stripped, SectionName, FilterOf, RuleOf, RouteOf;
  }

  lemma HeaderLoads(st: Load, name: string, ifs: seq<Iface>)
    requires name == "router" || name == "filter" || name == "firewall" || name == "route"
    ensures LoadLine(st, "[" + name + "]" + "\n", ifs) == st.(section := name)
  {
    hide Stripped, SectionName, LoadLine;
    var l := "[" + name + "]";
    NameIsPlain(name);
    StrippedLine(l);
    assert l[1..] == name + "]";
    SectionNameIs(name);
    SectionLoads(st, l + "\n", l, ifs);
  }

  lemma EmptyLoads(st: Load, ifs: seq<Iface>)
    ensures LoadLine(st, "" + "\n", ifs) == st && LoadLine(st, REMARK + "\n", ifs) == st
  {
    StrippedLine(REMARK);
    assert Stripped("\n") == "" by { assert Chopped("\n", '\n') == ""; }
    hide Stripped, FilterOf, RuleOf, RouteOf;
  }

  lemma OneLineLoads(st: Load, l: string, ifs: seq<Iface>)
    ensures LoadLines(st, WithNewlines([l]), ifs) == LoadLine(st, l + "\n", ifs)
  {
    assert WithNewlines([l]) == [l + "\n"];
    assert [l + "\n"][..0] == [];
    hide LoadLine;
  }

  lemma NewlinesConcat(a: seq<string>, b: seq<string>)
    ensures WithNewlines(a + b) == WithNewlines(a) + WithNewlines(b)
  {}

  /** Loading line by line, two parts of a file. */
  lemma PartsLoad(st: Load, a: seq<string>, b: seq<string>, ifs: seq<Iface>)
    ensures LoadLines(st, WithNewlines(a + b), ifs) == LoadLines(LoadLines(st, WithNewlines(a), ifs), WithNewlines(b), ifs)
  {
    hide LoadLines;
    NewlinesConcat(a, b);
    LoadConcat(st, WithNewlines(a), WithNewlines(b), ifs);
  }

  function Preamble(keys: seq<string>): seq<string> {
    ["[router]"] + keys + ["", "[filter]", REMARK, "", "[firewall]"]
  }

  lemma PreambleLoads(st: Load, keys: seq<string>, ifs: seq<Iface>)
    requires forall i :: 0 <= i < |keys| ==> IsKey(keys[i])
    ensures LoadLines(st, WithNewlines(Preamble(keys)), ifs) == st.(section := "firewall")
  {
    var a, b, c, d, e, f := ["[router]"], [""], ["[filter]"], [REMARK], [""], ["[firewall]"];
    hide IsKey, LoadLine, LoadLines, WithNewlines;
    assert Preamble(keys) == a + keys + b + c + d + e + f;
    var rt, fl := st.(section := "router"), st.(section := "filter");
    OneLineLoads(st, "[router]", ifs);
    OneLineLoads(rt, "", ifs);
    OneLineLoads(rt, "[filter]", ifs);
    OneLineLoads(fl, REMARK, ifs);
    OneLineLoads(fl, "", ifs);
    OneLineLoads(fl, "[firewall]", ifs);
    HeadersRead(st, rt, fl, ifs);
    EmptyLoads(rt, ifs);
    EmptyLoads(fl, ifs);
    KeysLoad(rt, keys, ifs);
    PartsLoad(st, a, keys, ifs);
    PartsLoad(st, a + keys, b, ifs);
    PartsLoad(st, a + keys + b, c, ifs);
    PartsLoad(st, a + keys + b + c, d, ifs);
    PartsLoad(st, a + keys + b + c + d, e, ifs);
    PartsLoad(st, a + keys + b + c + d + e, f, ifs);
  }

  lemma HeadersRead(st: Load, rt: Load, fl: Load, ifs: seq<Iface>)
    ensures LoadLine(st, "[router]" + "\n", ifs) == st.(section := "router")
    ensures LoadLine(rt, "[filter]" + "\n", ifs) == rt.(section := "filter")
    ensures LoadLine(fl, "[firewall]" + "\n", ifs) == fl.(section := "firewall")
  {
    assert "[" + "router" + "]" == "[router]" && "[" + "filter" + "]" == "[filter]" && "[" + "firewall" + "]" == "[firewall]";
    hide LoadLine;
    HeaderLoads(st, "router", ifs);
    HeaderLoads(rt, "filter", ifs);
    HeaderLoads(fl, "firewall", ifs);
  }

  lemma RouteHeadLoads(st: Load, ifs: seq<Iface>)
    ensures LoadLines(st, WithNewlines(["", "[route]"]), ifs) == st.(section := "route")
  {
    assert ["", "[route]"] == [""] + ["[route]"] && "[" + "route" + "]" == "[route]";
    hide LoadLine, LoadLines;
    PartsLoad(st, [""], ["[route]"], ifs);
    OneLineLoads(st, "", ifs);
    OneLineLoads(st, "[route]", ifs);
    EmptyLoads(st, ifs);
    HeaderLoads(st, "route", ifs);
  }

  /** All lines of a written file are short single lines. */
  lemma SavedLinesAreLines(keys: seq<string>, rules: seq<FW.Rule>, routes: seq<R.Route>, ifs: seq<Iface>, clz0: int)
    requires Setting(keys, ifs, clz0) && RulesOk(rules)
    ensures forall i :: 0 <= i < |SavedLines(keys, rules, routes, ifs, clz0)| ==> OneLine(SavedLines(keys, rules, routes, ifs, clz0)[i])
  {
    var st := R.Only(routes, true);
    forall i | 0 <= i < |rules| ensures OneLine(RuleLines(rules)[i]) { RuleLineIsPlain(rules[i]); }
    forall i | 0 <= i < |st| ensures OneLine(RouteLines(st, ifs, clz0)[i]) { RouteLineIsPlain(st[i], ifs, clz0); }
    PreambleIsLines(keys);
    hide OneLine, RT.RuleLine, T.RouteLine, RuleLines, RouteLines, R.Only, Preamble;
    assert SavedLines(keys, rules, routes, ifs, clz0) ==
           Preamble(keys) + RuleLines(rules) + ["", "[route]"] + RouteLines(st, ifs, clz0) by { PreambleStarts(keys, rules, routes, ifs, clz0); }
  }

  lemma PreambleStarts(keys: seq<string>, rules: seq<FW.Rule>, routes: seq<R.Route>, ifs: seq<Iface>, clz0: int)
    ensures SavedLines(keys, rules, routes, ifs, clz0) ==
            Preamble(keys) + RuleLines(rules) + ["", "[route]"] + RouteLines(R.Only(routes, true), ifs, clz0)
  {
    hide RuleLines, RouteLines, R.Only;
  }

  lemma PreambleIsLines(keys: seq<string>)
    requires KeysOk(keys)
    ensures forall i :: 0 <= i < |Preamble(keys)| ==> OneLine(Preamble(keys)[i])
  {
    assert OneLine("[router]") && OneLine("") && OneLine("[filter]") && OneLine(REMARK) && OneLine("[firewall]");
    hide OneLine;
    assert forall i :: 0 <= i < |keys| ==> IsKey(keys[i]);
  }

  lemma {:induction false} OnlyStaticsFrom(routes: seq<R.Route>)
    ensures forall i :: 0 <= i < |R.Only(routes, true)| ==> R.Only(routes, true)[i].isStatic && R.Only(routes, true)[i] in routes
  {
    if routes != [] {
      OnlyStaticsFrom(routes[..|routes| - 1]);
    }
  }

  lemma StaticsAreSavable(routes: seq<R.Route>, ifs: seq<Iface>, clz0: int)
    requires StaticsSavable(routes, ifs, clz0)
    ensures forall i :: 0 <= i < |R.Only(routes, true)| ==> T.Savable(R.Only(routes, true)[i], ifs, clz0)
  {
    hide T.Savable;
    OnlyStaticsFrom(routes);
  }

  /** Loading a saved file is loading its rules and then its routes. */
  lemma SavedParts(keys: seq<string>, rules: seq<FW.Rule>, routes: seq<R.Route>, ifs: seq<Iface>, clz0: int, now: seq<R.Route>)
    requires Setting(keys, ifs, clz0) && RulesOk(rules) && Saved(keys, rules, routes, ifs, clz0).Text?
    ensures var st := LoadLines(Load("firewall", [], R.Only(now, false)), WithNewlines(RuleLines(rules)), ifs);
            && st.section == "firewall" && st.routes == R.Only(now, false)
            && Loaded(Saved(keys, rules, routes, ifs, clz0).text, now, ifs) ==
               LoadLines(st.(section := "route"), WithNewlines(RouteLines(R.Only(routes, true), ifs, clz0)), ifs)
  {
    SavedLinesAreLines(keys, rules, routes, ifs, clz0);
    WrittenIff(keys, rules, routes, ifs, clz0, FILE_BUF);
    PreambleStarts(keys, rules, routes, ifs, clz0);
    hide LoadLines, LoadLine, WithNewlines, RuleLines, RouteLines, R.Only, IsKey, RT.RuleOk, OneLine, FileLines, TextOf, Prints,
         SavedLines, Preamble;
    var st0 := Load("", [], R.Only(now, false));
    var p, q, h, r := Preamble(keys), RuleLines(rules), ["", "[route]"], RouteLines(R.Only(routes, true), ifs, clz0);
    LinesOfText(SavedLines(keys, rules, routes, ifs, clz0));
    PartsLoad(st0, p, q, ifs);
    PartsLoad(st0, p + q, h, ifs);
    PartsLoad(st0, p + q + h, r, ifs);
    PreambleLoads(st0, keys, ifs);
    var st1 := st0.(section := "firewall");
    RulesLeaveRoutes(st1, rules, ifs);
    RouteHeadLoads(LoadLines(st1, WithNewlines(q), ifs), ifs);
  }

  /**
   A file that was written is read back line by line: the rules are what the parser makes of the printed ones,
   which are the same rules in the same order if and only if no keyword has a blank, and the routes are added
   one by one, each as it was if it can be written down.
   */
  lemma SavedLoads(keys: seq<string>, rules: seq<FW.Rule>, routes: seq<R.Route>, ifs: seq<Iface>, clz0: int, now: seq<R.Route>)
    requires Setting(keys, ifs, clz0) && RulesOk(rules) && Saved(keys, rules, routes, ifs, clz0).Text?
    ensures var q, st := Loaded(Saved(keys, rules, routes, ifs, clz0).text, now, ifs), R.Only(routes, true);
            && q.rules == Reread(rules) && (q.rules == Normals(rules) <==> BlankFreeKeywords(rules))
            && q.routes == AddRoutes(R.Only(now, false), RereadRoutes(st, ifs, clz0))
            && (StaticsSavable(routes, ifs, clz0) ==> RereadRoutes(st, ifs, clz0) == st)
  {
    SavedParts(keys, rules, routes, ifs, clz0, now);
    hide LoadLines, LoadLine, WithNewlines, RuleLines, RouteLines, R.Only, AddRoutes, RT.RuleOk, T.Savable, Loaded, Saved, StaticsSavable,
         Normals, Reread, RereadRoutes, Plain, BlankFreeKeywords;
    var st0 := Load("firewall", [], R.Only(now, false));
    var st := LoadLines(st0, WithNewlines(RuleLines(rules)), ifs);
    RoutesLeaveRules(st.(section := "route"), R.Only(routes, true), ifs, clz0);
    RulesLoad(st0, rules, ifs);
    assert [] + Reread(rules) == Reread(rules);
    RulesComeBackIff(rules);
    RoutesLoad(st.(section := "route"), R.Only(routes, true), ifs, clz0);
    if StaticsSavable(routes, ifs, clz0) {
      StaticsAreSavable(routes, ifs, clz0);
      SavableComeBack(R.Only(routes, true), ifs, clz0);
    }
  }

  lemma {:induction false} NormalsDecideAlike(rules: seq<FW.Rule>, f: seq<Byte>)
    ensures FW.Verdict(Normals(rules), f) == FW.Verdict(rules, f)
  {
    hide FW.Matches, RT.Normal;
    if rules != [] {
      assert Normals(rules)[0] == RT.Normal(rules[0]) && Normals(rules)[1..] == Normals(rules[1..]);
      RT.NormalMatches(rules[0], f);
      assert RT.Normal(rules[0]).action == rules[0].action by { ActionStays(rules[0]); }
      NormalsDecideAlike(rules[1..], f);
    }
  }

  lemma ActionStays(r: FW.Rule)
    ensures RT.Normal(r).action == r.action
  {}

  /** The filter decides about every frame after a save and a reload as it did before, whatever the routes. */
  lemma FilterSurvives(keys: seq<string>, rules: seq<FW.Rule>, routes: seq<R.Route>, ifs: seq<Iface>, clz0: int, f: seq<Byte>)
    requires Setting(keys, ifs, clz0) && RulesOk(rules) && BlankFreeKeywords(rules)
    requires Saved(keys, rules, routes, ifs, clz0).Text?
    ensures FW.Verdict(Loaded(Saved(keys, rules, routes, ifs, clz0).text, routes, ifs).rules, f) == FW.Verdict(rules, f)
  {
    hide Loaded, Saved, Normals, RulesOk, BlankFreeKeywords;
    SavedLoads(keys, rules, routes, ifs, clz0, routes);
    NormalsDecideAlike(rules, f);
  }

  // ---------------------------------------------------------------- which static routes survive

  predicate InTable(s: seq<R.Route>, r: R.Route) {
    R.Present(s, r.dest, r.mask, r.gw, r.ifindex)
  }

  /** The statics that are not also in the table c. */
  function Missing(st: seq<R.Route>, c: seq<R.Route>): (m: seq<R.Route>)
    ensures |m| <= |st|
  {
    if st == [] then []
    else
      var last := st[|st| - 1];
      Missing(st[..|st| - 1], c) + if InTable(c, last) then [] else [last]
  }

  ghost predicate Distinct(st: seq<R.Route>) {
    && (forall i :: 0 <= i < |st| ==> st[i].isStatic)
    && (forall i, j :: 0 <= i < j < |st| ==> st[i] != st[j])
  }

  lemma {:induction false} MissingFrom(st: seq<R.Route>, c: seq<R.Route>)
    ensures forall i :: 0 <= i < |Missing(st, c)| ==> Missing(st, c)[i] in st
  {
    if st != [] {
      MissingFrom(st[..|st| - 1], c);
    }
  }

  lemma {:induction false} MissingIsAllIff(st: seq<R.Route>, c: seq<R.Route>)
    ensures Missing(st, c) == st <==> forall i :: 0 <= i < |st| ==> !InTable(c, st[i])
  {
    hide InTable;
    if st != [] {
      var t := st[..|st| - 1];
      MissingIsAllIff(t, c);
      assert st == t + [st[|st| - 1]];
      if InTable(c, st[|st| - 1]) {
        assert |Missing(st, c)| < |st|;
      } else {
        assert Missing(st, c) == Missing(t, c) + [st[|st| - 1]];
        if Missing(st, c) == st {
          assert Missing(t, c) == st[..|st| - 1];
        }
      }
    }
  }

  lemma InTableConcat(c: seq<R.Route>, m: seq<R.Route>, r: R.Route)
    requires r.isStatic && (forall i :: 0 <= i < |m| ==> m[i].isStatic && m[i] != r)
    ensures InTable(c + m, r) == InTable(c, r)
  {
    var s := c + m;
    if InTable(s, r) {
      var i :| 0 <= i < |s| && s[i].dest == r.dest && s[i].mask == r.mask && s[i].gw == r.gw && s[i].ifindex == r.ifindex;
      assert forall k: nat :: k < |m| ==> s[|c| + k] == m[k];
      assert c[i] == s[i];
    }
    if InTable(c, r) {
      var i :| 0 <= i < |c| && c[i].dest == r.dest && c[i].mask == r.mask && c[i].gw == r.gw && c[i].ifindex == r.ifindex;
      assert s[i] == c[i];
    }
  }

  lemma {:induction false} RoutesAdded(c: seq<R.Route>, st: seq<R.Route>)
    requires Distinct(st) && |c| + |st| <= R.MAX_ROUTE
    ensures AddRoutes(c, st) == c + Missing(st, c)
  {
    if st != [] {
      var t, r := st[..|st| - 1], st[|st| - 1];
      RoutesAdded(c, t);
      MissingFrom(t, c);
      InTableConcat(c, Missing(t, c), r);
      hide InTable, R.Present;
      OneAdded(c + Missing(t, c), r);
      assert (c + Missing(t, c)) + [r] == c + (Missing(t, c) + [r]);
    } else {
      assert c + [] == c;
    }
  }

  lemma OneAdded(s: seq<R.Route>, r: R.Route)
    requires r.isStatic && |s| < R.MAX_ROUTE
    ensures AddRoute(s, Some(r)) == if InTable(s, r) then s else s + [r]
  {}

  lemma {:induction false} OnlySplits(s: seq<R.Route>)
    ensures |R.Only(s, true)| + |R.Only(s, false)| == |s|
  {
    if s != [] {
      OnlySplits(s[..|s| - 1]);
    }
  }

  lemma StaticsBehind(c: seq<R.Route>, m: seq<R.Route>)
    requires (forall i :: 0 <= i < |c| ==> !c[i].isStatic) && (forall i :: 0 <= i < |m| ==> m[i].isStatic)
    ensures R.Only(c + m, true) == m
  {
    R.OnlyConcat(c, m, true);
    R.OnlyOfKind(c, false);
    R.OnlyOfKind(m, true);
    hide R.Only;
    assert [] + m == m;
  }

  /**
   Saving the configuration, loading it and rebuilding the connected routes keeps exactly the static routes
   that are not also connected ones in the table, in their order, with the connected routes behind them as far
   as they fit, whatever the keywords of the rules. All of them survive if and only if no static route repeats
   a connected one.
   */
  lemma StaticsSurviveIff(keys: seq<string>, rules: seq<FW.Rule>, routes: seq<R.Route>, ifs: seq<Iface>, clz0: int)
    requires Setting(keys, ifs, clz0) && RulesOk(rules) && StaticsSavable(routes, ifs, clz0)
    requires Saved(keys, rules, routes, ifs, clz0).Text?
    requires |routes| <= R.MAX_ROUTE && Distinct(R.Only(routes, true))
    ensures var st, c := R.Only(routes, true), R.Only(routes, false);
            var again := R.Rederived(Loaded(Saved(keys, rules, routes, ifs, clz0).text, routes, ifs).routes, ifs);
            && R.Only(again, true) == Missing(st, c)
            && again == R.Clip(Missing(st, c) + R.ConnectedRoutes(ifs))
            && (R.Only(again, true) == st <==> forall i :: 0 <= i < |st| ==> !InTable(c, st[i]))
  {
    var st, c := R.Only(routes, true), R.Only(routes, false);
    SavedLoads(keys, rules, routes, ifs, clz0, routes);
    OnlySplits(routes);
    R.OnlyIsOfKind(routes, false);
    MissingFrom(st, c);
    hide Loaded, Saved, RulesOk, StaticsSavable, R.Only, R.ConnectedRoutes, InTable, Missing, AddRoutes;
    RoutesAdded(c, st);
    StaticsBehind(c, Missing(st, c));
    R.RederiveKeepsStatics(c + Missing(st, c), ifs);
    MissingIsAllIff(st, c);
  }

  /** Behind the table c there are static routes only. */
  ghost predicate Behind(c: seq<R.Route>, a: seq<R.Route>) {
    c <= a && forall i :: |c| <= i < |a| ==> a[i].isStatic
  }

  /** A static route that is added is in the table at the end exactly when no connected route is the same. */
  lemma {:induction false} AddedIff(c: seq<R.Route>, rs: seq<R.Route>, r: R.Route)
    requires |c| + |rs| <= R.MAX_ROUTE && r.isStatic && r !in c && (forall i :: 0 <= i < |rs| ==> rs[i].isStatic)
    ensures Behind(c, AddRoutes(c, rs)) && |AddRoutes(c, rs)| <= |c| + |rs|
    ensures r in AddRoutes(c, rs) <==> r in rs && !InTable(c, r)
  {
    hide InTable, AddRoute;
    if rs != [] {
      var t, x := rs[..|rs| - 1], rs[|rs| - 1];
      AddedIff(c, t, r);
      var a := AddRoutes(c, t);
      OneAdded(a, x);
      assert rs == t + [x];
      StaticInTable(c, a, r);
    }
  }

  /** A static route repeats an entry of c or is itself in the table. */
  lemma StaticInTable(c: seq<R.Route>, a: seq<R.Route>, r: R.Route)
    requires Behind(c, a) && r.isStatic
    ensures InTable(a, r) <==> InTable(c, r) || r in a
  {
    if InTable(a, r) {
      var i :| 0 <= i < |a| && a[i].dest == r.dest && a[i].mask == r.mask && a[i].gw == r.gw && a[i].ifindex == r.ifindex;
      if i < |c| {
        assert c[i] == a[i];
      } else {
        assert a[i] == r;
      }
    }
    if InTable(c, r) {
      var i :| 0 <= i < |c| && c[i].dest == r.dest && c[i].mask == r.mask && c[i].gw == r.gw && c[i].ifindex == r.ifindex;
      assert a[i] == c[i];
    }
  }

  lemma {:induction false} RereadIsStatic(rs: seq<R.Route>, ifs: seq<Iface>, clz0: int)
    ensures forall i :: 0 <= i < |RereadRoutes(rs, ifs, clz0)| ==> RereadRoutes(rs, ifs, clz0)[i].isStatic
  {
    hide RT.FileArgv, T.RouteLine;
    if rs != [] {
      RereadIsStatic(rs[..|rs| - 1], ifs, clz0);
      ParsedIsStatic(RT.FileArgv(T.RouteLine(rs[|rs| - 1], ifs, clz0)), ifs);
      hide T.ParsedRoute;
    }
  }

  lemma ParsedIsStatic(ws: seq<string>, ifs: seq<Iface>)
    ensures T.ParsedRoute(ws, ifs).Some? ==> T.ParsedRoute(ws, ifs).value.isStatic
  {}

  ghost predicate MasksOk(rs: seq<R.Route>) {
    forall i :: 0 <= i < |rs| && rs[i].isStatic ==> IsMask(rs[i].mask)
  }

  /** A route that can be written down is among those read back; with unique indices no other one is. */
  lemma {:induction false} RereadIff(rs: seq<R.Route>, ifs: seq<Iface>, clz0: int, r: R.Route)
    requires T.RealNames(ifs) && T.IsInt(clz0)
    ensures r in rs && T.Savable(r, ifs, clz0) ==> r in RereadRoutes(rs, ifs, clz0)
    ensures UniqueIndices(ifs) && (forall i :: 0 <= i < |rs| ==> IsMask(rs[i].mask)) && r in RereadRoutes(rs, ifs, clz0) ==>
              T.Savable(r, ifs, clz0)
  {
    hide T.ParsedRoute, RT.FileArgv, T.RouteLine, T.Savable, T.RealNames, UniqueIndices, IsMask;
    if rs != [] {
      var t, x := rs[..|rs| - 1], rs[|rs| - 1];
      RereadIff(t, ifs, clz0, r);
      if T.Savable(x, ifs, clz0) {
        T.RouteRoundTrip(x, ifs, clz0);
      }
      if UniqueIndices(ifs) && IsMask(x.mask) {
        T.ReadIsSavable(x, ifs, clz0);
      }
    }
  }

  /**
   Which static route of a table survives a save, a load and a rebuild, whatever the others are: one that is
   read back, and is not also a connected one. With unique indices those read back are those that can be
   written down.
   */
  lemma StaticSurvivesIff(keys: seq<string>, rules: seq<FW.Rule>, routes: seq<R.Route>, ifs: seq<Iface>, clz0: int, r: R.Route)
    requires Setting(keys, ifs, clz0) && RulesOk(rules) && Saved(keys, rules, routes, ifs, clz0).Text?
    requires |routes| <= R.MAX_ROUTE && MasksOk(routes) && r in R.Only(routes, true)
    ensures var st, c := R.Only(routes, true), R.Only(routes, false);
            var again := R.Rederived(Loaded(Saved(keys, rules, routes, ifs, clz0).text, routes, ifs).routes, ifs);
            && (r in R.Only(again, true) <==> r in RereadRoutes(st, ifs, clz0) && !InTable(c, r))
            && (UniqueIndices(ifs) ==> (r in R.Only(again, true) <==> T.Savable(r, ifs, clz0) && !InTable(c, r)))
  {
    hide Loaded, Saved, RulesOk, StaticsSavable, R.Only, R.ConnectedRoutes, InTable, AddRoutes, RereadRoutes, T.Savable, IsMask, Reread,
         Normals, BlankFreeKeywords;
    var st, c := R.Only(routes, true), R.Only(routes, false);
    var xs := RereadRoutes(st, ifs, clz0);
    SavedLoads(keys, rules, routes, ifs, clz0, routes);
    OnlySplits(routes);
    R.OnlyIsOfKind(routes, false);
    OnlyStaticsFrom(routes);
    RereadIsStatic(st, ifs, clz0);
    AddedIff(c, xs, r);
    R.RederiveKeepsStatics(AddRoutes(c, xs), ifs);
    StaticsOf(AddRoutes(c, xs), r);
    assert forall i :: 0 <= i < |st| ==> IsMask(st[i].mask);
    RereadIff(st, ifs, clz0, r);
  }

  lemma StaticsOf(s: seq<R.Route>, r: R.Route)
    requires r.isStatic
    ensures r in R.Only(s, true) <==> r in s
  {
    OnlyHasStatics(s);
    OnlyStaticsFrom(s);
    hide R.Only;
  }

  // ---------------------------------------------------------------- tables the router can have

  datatype RouteOp = Add(dest: Ip, mask: Ip, gw: Ip, ifindex: int) | Del(index: nat) | ClearStatic | Derive(ifs: seq<Iface>)

  function Applied(s: seq<R.Route>, op: RouteOp): seq<R.Route> {
    match op
    case Add(dest, mask, gw, ifindex) => R.Added(s, dest, mask, gw, ifindex)
    case Del(index) => if index < |s| && s[index].isStatic then s[..index] + s[index + 1..] else s
    case ClearStatic => R.Only(s, false)
    case Derive(ifs) => R.Rederived(s, ifs)
  }

  function Run(ops: seq<RouteOp>): seq<R.Route> {
    if ops == [] then [] else Applied(Run(ops[..|ops| - 1]), ops[|ops| - 1])
  }

  lemma {:induction false} RunIsDistinct(ops: seq<RouteOp>)
    ensures |Run(ops)| <= R.MAX_ROUTE && Distinct(R.Only(Run(ops), true))
  {
    if ops != [] {
      RunIsDistinct(ops[..|ops| - 1]);
      StepIsDistinct(Run(ops[..|ops| - 1]), ops[|ops| - 1]);
    }
  }

  /** No sequence of route commands, reloads and interface changes overfills the table or makes a static route twice. */
  lemma StepIsDistinct(s: seq<R.Route>, op: RouteOp)
    requires |s| <= R.MAX_ROUTE && Distinct(R.Only(s, true))
    ensures |Applied(s, op)| <= R.MAX_ROUTE && Distinct(R.Only(Applied(s, op), true))
  {
    hide R.Only, R.ConnectedRoutes;
    match op
    case Add(dest, mask, gw, ifindex) =>
      if Applied(s, op) != s {
        AddIsDistinct(s, R.Route(dest, mask, gw, ifindex, true));
      }
    case Del(index) =>
      if index < |s| && s[index].isStatic {
        DelIsDistinct(s, index);
      }
    case ClearStatic =>
      R.OnlyIsOfKind(s, false);
      R.OnlyOfKind(R.Only(s, false), false);
    case Derive(ifs) =>
      R.RederiveKeepsStatics(s, ifs);
  }

  lemma AddIsDistinct(s: seq<R.Route>, r: R.Route)
    requires Distinct(R.Only(s, true)) && r.isStatic && !InTable(s, r)
    ensures Distinct(R.Only(s + [r], true))
  {
    OnlyStaticsFrom(s);
    assert (s + [r])[..|s|] == s;
    var st := R.Only(s, true);
    assert R.Only(s + [r], true) == st + [r];
    hide R.Only;
    forall i | 0 <= i < |st| ensures st[i] != r {
      assert st[i] in s;
    }
  }

  lemma DelIsDistinct(s: seq<R.Route>, index: nat)
    requires Distinct(R.Only(s, true)) && index < |s| && s[index].isStatic
    ensures Distinct(R.Only(s[..index] + s[index + 1..], true))
  {
    hide R.Only, Distinct;
    var a, b := s[..index], s[index + 1..];
    assert s == (a + [s[index]]) + b;
    R.OnlyConcat(a + [s[index]], b, true);
    OnlySnoc(a, s[index]);
    R.OnlyConcat(a, b, true);
    RemoveKeepsDistinct(R.Only(a, true), s[index], R.Only(b, true));
  }

  lemma OnlySnoc(a: seq<R.Route>, r: R.Route)
    requires r.isStatic
    ensures R.Only(a + [r], true) == R.Only(a, true) + [r]
  {
    assert (a + [r])[..|a|] == a;
  }

  lemma RemoveKeepsDistinct(a: seq<R.Route>, x: R.Route, b: seq<R.Route>)
    requires Distinct((a + [x]) + b)
    ensures Distinct(a + b)
  {
    var st, u := (a + [x]) + b, a + b;
    assert forall i :: 0 <= i < |u| ==> u[i] == st[if i < |a| then i else i + 1];
  }

  /** It happens: a static route for a network an interface is put into afterwards is gone after a reload. */
  lemma StaticCanBeLost(it: Iface)
    requires it.ip == 0x0A00_0001 && it.netmask == 0xFF00_0000 && it.ifindex == 1
    ensures var s := Run([Add(0x0A00_0000, 0xFF00_0000, 0, 1), Derive([it])]);
            |R.Only(s, true)| == 1 && Missing(R.Only(s, true), R.Only(s, false)) == []
  {
    var st, c := R.Route(0x0A00_0000, 0xFF00_0000, 0, 1, true), R.Route(0x0A00_0000, 0xFF00_0000, 0, 1, false);
    var add, derive := Add(0x0A00_0000, 0xFF00_0000, 0, 1), Derive([it]);
    assert R.ConnectedRoute(it) == c && R.Derives(it);
    hide R.ConnectedRoute, R.Derives;
    OneThenOther(add, derive);
    assert Applied([], add) == [st];
    OneConnected(it);
    R.OnlyOfKind([st], true);
    R.OnlyOfKind([c], false);
    R.OnlyConcat([st], [c], true);
    R.OnlyConcat([st], [c], false);
    assert [st] + [c] == [st, c];
    hide R.Only, R.ConnectedRoutes;
    assert R.Rederived([st], [it]) == [st] + [c];
    assert [st][..0] == [] && InTable([c], st) by { assert [c][0] == c; }
  }

  lemma OneThenOther(a: RouteOp, b: RouteOp)
    ensures Run([a, b]) == Applied(Applied([], a), b)
  {
    hide Applied;
    var none: seq<RouteOp> := [];
    assert [a][..0] == none && Run(none) == [];
    assert Run([a]) == Applied(Run(none), a);
    assert [a, b][..1] == [a];
  }

  lemma OneConnected(it: Iface)
    requires R.Derives(it)
    ensures R.ConnectedRoutes([it]) == [R.ConnectedRoute(it)]
  {
    assert [it][..0] == [];
    hide R.ConnectedRoute, R.Derives;
  }

  // ---------------------------------------------------------------- the code

  /** One snprintf of config_serialize. */
  method Append(buf: string, wild: bool, s: string, size: nat, ghost before: seq<string>) returns (buf': string, wild': bool)
    requires Out(buf, wild) == PrintAll(before, size)
    ensures Out(buf', wild') == PrintAll(before + [s], size)
  {
    assert (before + [s])[..|before|] == before;
    buf', wild' := buf + s, wild || |buf| > size;
  }

  /** config_serialize, on the tables. */
  method Serialize(keys: seq<string>, fw: FW.Table, rt: R.Table, ifs: seq<Iface>, size: nat) returns (w: Written)
    requires fw.Valid() && rt.Valid()
    ensures w == Serialized(keys, fw.Contents(), rt.Contents(), ifs, rt.clz0, size)
  {
    hide RT.RuleLine, T.RouteLine, RuleLines, RouteLines, R.Only, PrintAll, WithNewlines, TextOf;
    ghost var rules, routes := fw.Contents(), rt.Contents();
    NoLines(keys, rules, routes, ifs, rt.clz0);
    NothingPrinted(size);
    var buf, wild := Append("", false, TextOf(ROUTER_HEAD), size, []);
    ghost var head := [TextOf(ROUTER_HEAD)];
    assert [] + head == head && head + [] == head;
    for i := 0 to |keys|
      invariant Out(buf, wild) == PrintAll(head + WithNewlines(keys[..i]), size)
    {
      MoreKeys(keys, i);
      ghost var ls := WithNewlines(keys[..i]);
      assert head + (ls + [keys[i] + "\n"]) == head + ls + [keys[i] + "\n"];
      buf, wild := Append(buf, wild, keys[i] + "\n", size, head + ls);
    }
    assert keys[..|keys|] == keys;
    head := head + WithNewlines(keys);
    buf, wild := Append(buf, wild, TextOf(FILTER_HEAD), size, head);
    buf, wild := Append(buf, wild, TextOf(FIREWALL_HEAD), size, head + [TextOf(FILTER_HEAD)]);
    assert head + [TextOf(FILTER_HEAD)] + [TextOf(FIREWALL_HEAD)] == head + [TextOf(FILTER_HEAD), TextOf(FIREWALL_HEAD)];
    head := head + [TextOf(FILTER_HEAD), TextOf(FIREWALL_HEAD)];
    buf, wild := AppendRules(fw, buf, wild, size, head);
    head := head + WithNewlines(RuleLines(rules));
    buf, wild := Append(buf, wild, TextOf(ROUTE_HEAD), size, head);
    head := head + [TextOf(ROUTE_HEAD)];
    buf, wild := AppendRoutes(rt, ifs, buf, wild, size, head);
    w := if wild then Overrun else if |buf| < size then Text(buf) else Refused;
  }

  method AppendRules(fw: FW.Table, buf: string, wild: bool, size: nat, ghost head: seq<string>) returns (buf': string, wild': bool)
    requires fw.Valid() && Out(buf, wild) == PrintAll(head, size)
    ensures Out(buf', wild') == PrintAll(head + WithNewlines(RuleLines(fw.Contents())), size)
  {
    hide RT.RuleLine, RuleLines, PrintAll, WithNewlines;
    ghost var rules := fw.Contents();
    buf', wild' := buf, wild;
    NoLines([], rules, [], [], 0);
    assert head + [] == head;
    for i := 0 to fw.n
      invariant Out(buf', wild') == PrintAll(head + WithNewlines(RuleLines(rules[..i])), size)
    {
      assert fw.rules[i] == rules[i];
      var line := RT.RuleToLine(fw.rules[i]);
      RuleLinesGrow(rules[..i], rules[i]);
      assert rules[..i + 1] == rules[..i] + [rules[i]];
      ghost var ls := WithNewlines(RuleLines(rules[..i]));
      assert head + (ls + [line + "\n"]) == head + ls + [line + "\n"];
      buf', wild' := Append(buf', wild', line + "\n", size, head + ls);
    }
    assert rules[..fw.n] == rules;
  }

  method AppendRoutes(rt: R.Table, ifs: seq<Iface>, buf: string, wild: bool, size: nat, ghost head: seq<string>)
    returns (buf': string, wild': bool)
    requires rt.Valid() && Out(buf, wild) == PrintAll(head, size)
    ensures Out(buf', wild') == PrintAll(head + WithNewlines(RouteLines(R.Only(rt.Contents(), true), ifs, rt.clz0)), size)
  {
    hide T.RouteLine, RouteLines, R.Only, PrintAll, WithNewlines;
    ghost var routes := rt.Contents();
    buf', wild' := buf, wild;
    NoLines([], [], routes, ifs, rt.clz0);
    assert head + [] == head;
    for i := 0 to rt.n
      invariant Out(buf', wild') == PrintAll(head + WithNewlines(RouteLines(R.Only(routes[..i], true), ifs, rt.clz0)), size)
    {
      assert rt.routes[i] == routes[i];
      MoreRouteLines(routes, i, ifs, rt.clz0);
      ghost var ls := WithNewlines(RouteLines(R.Only(routes[..i], true), ifs, rt.clz0));
      assert ls + [] == ls;
      if rt.routes[i].isStatic {
        var line := T.RouteLine(rt.routes[i], ifs, rt.clz0);
        assert head + (ls + [line + "\n"]) == head + ls + [line + "\n"];
        buf', wild' := Append(buf', wild', line + "\n", size, head + ls);
      }
    }
    assert routes[..rt.n] == routes;
  }

  lemma NothingPrinted(size: nat)
    ensures PrintAll([], size) == Out("", false)
  {}

  lemma NoLines(keys: seq<string>, rules: seq<FW.Rule>, routes: seq<R.Route>, ifs: seq<Iface>, clz0: int)
    ensures WithNewlines(keys[..0]) == [] && WithNewlines(RuleLines(rules[..0])) == []
    ensures WithNewlines(RouteLines(R.Only(routes[..0], true), ifs, clz0)) == []
  {}

  lemma MoreKeys(keys: seq<string>, i: nat)
    requires i < |keys|
    ensures WithNewlines(keys[..i + 1]) == WithNewlines(keys[..i]) + [keys[i] + "\n"]
  {}

  lemma MoreRouteLines(routes: seq<R.Route>, i: nat, ifs: seq<Iface>, clz0: int)
    requires i < |routes|
    ensures WithNewlines(RouteLines(R.Only(routes[..i + 1], true), ifs, clz0)) ==
            WithNewlines(RouteLines(R.Only(routes[..i], true), ifs, clz0))
            + if routes[i].isStatic then [T.RouteLine(routes[i], ifs, clz0) + "\n"] else []
  {
    R.OnlyGrows(routes, i, true);
    hide T.RouteLine, R.Only;
  }

  /**
   config_load, where the text is all the bytes that the reads return, whatever happens to the file meanwhile:
   without a file both tables are emptied of what a file would set.
   */
  method LoadFile(text: Option<string>, fw: FW.Table, rt: R.Table, ifs: seq<Iface>)
    requires fw.Valid() && rt.Valid()
    modifies fw, fw.rules, rt, rt.routes
    ensures fw.Valid() && rt.Valid()
    ensures text.None? ==> fw.Contents() == [] && rt.Contents() == R.Only(old(rt.Contents()), false)
    ensures text.Some? ==>
              var st := Loaded(text.value, old(rt.Contents()), ifs); fw.Contents() == st.rules && rt.Contents() == st.routes
  {
    hide LoadLine, R.Only, FileLines, LoadLines;
    fw.Clear();
    rt.ClearStatic();
    if text.None? {
      return;
    }
    var section, rest := "", text.value;
    ghost var goal := Loaded(text.value, old(rt.Contents()), ifs);
    while rest != ""
      invariant fw.Valid() && rt.Valid()
      invariant goal == LoadLines(Load(section, fw.Contents(), rt.Contents()), FileLines(rest), ifs)
      decreases |rest|
    {
      var n := FgetsLen(rest);
      FirstLine(Load(section, fw.Contents(), rt.Contents()), rest, ifs);
      section := LoadOne(rest[..n], section, fw, rt, ifs);
      rest := rest[n..];
    }
    NoMoreLines(Load(section, fw.Contents(), rt.Contents()), ifs);
  }

  lemma NoMoreLines(st: Load, ifs: seq<Iface>)
    ensures LoadLines(st, FileLines(""), ifs) == st
  {}

  lemma FirstLine(st: Load, t: string, ifs: seq<Iface>)
    requires t != ""
    ensures LoadLines(st, FileLines(t), ifs) == LoadLines(LoadLine(st, t[..FgetsLen(t)], ifs), FileLines(t[FgetsLen(t)..]), ifs)
  {
    hide LoadLine;
    var l := t[..FgetsLen(t)];
    assert FileLines(t) == [l] + FileLines(t[FgetsLen(t)..]);
    LoadConcat(st, [l], FileLines(t[FgetsLen(t)..]), ifs);
    assert [l][..0] == [] && LoadLines(st, [l], ifs) == LoadLine(st, l, ifs);
  }

  /** The body of the loop of config_load. */
  method LoadOne(line: string, section: string, fw: FW.Table, rt: R.Table, ifs: seq<Iface>) returns (section': string)
    requires fw.Valid() && rt.Valid()
    modifies fw, fw.rules, rt, rt.routes
    ensures fw.Valid() && rt.Valid()
    ensures Load(section', fw.Contents(), rt.Contents()) ==
            LoadLine(Load(section, old(fw.Contents()), old(rt.Contents())), line, ifs)
  {
    hide Stripped, SectionName, FilterOf, RuleOf, RouteOf, R.Added;
    section' := section;
    var p := Stripped(line);
    if p == "" || p[0] == '#' {
      return;
    }
    if p[0] == '[' {
      return SectionName(p[1..]);
    }
    if section == "filter" {
      var r := FilterOf(p);
      if r.Some? {
        var _ := fw.Add(r.value);
      }
    } else if section == "firewall" {
      var r := RuleLineOf(p);
      if r.Some? {
        var _ := fw.Add(r.value);
      }
    } else if section == "route" {
      var r := RouteLineOf(p, ifs);
      if r.Some? {
        var _ := rt.Add(r.value.dest, r.value.mask, r.value.gw, r.value.ifindex);
      }
    }
  }

  method Split(s: string) returns (argv: seq<string>)
    requires NUL !in s
    ensures argv == RT.FileArgv(s)
  {
    argv := SplitCopy(s, 16);
  }

  /** parse_firewall_line up to the fw_add. */
  method RuleLineOf(p: string) returns (r: Option<FW.Rule>)
    requires NUL !in p
    ensures r == RuleOf(p)
  {
    hide RT.Parsed, RT.FileArgv;
    var argv := Split(SkipSlash(SkipIndent(p)));
    if |argv| < 1 {
      NoWordsNoRule();
      return None;
    }
    r := RT.ParseRule(argv);
  }

  lemma NoWordsNoRule()
    ensures RT.Parsed([]) == None
  {}

  /** parse_route_line up to the route_add. */
  method RouteLineOf(p: string, ifs: seq<Iface>) returns (r: Option<R.Route>)
    requires NUL !in p
    ensures r == RouteOf(p, ifs)
  {
    hide T.ParsedRoute, RT.FileArgv;
    var argv := Split(SkipSlash(SkipIndent(p)));
    r := T.ParseRoute(argv, ifs);
  }

  // ---------------------------------------------------------------- the two failures, in the code

  const LONG_RULE := FW.Rule(FW.Drop, 0x0A00_0001, ALL_ONES, 0x0A00_0002, ALL_ONES, FW.PROTO_TCP, 10000, 10000, seq(63, _ => 'k'))

  lemma LongRuleIsAccepted()
    ensures var l := RT.RuleLine(LONG_RULE); RuleOf(l) == Some(LONG_RULE) && |l| >= 131 && NUL !in l
  {
    assert MaskFromPrefix(32) == ALL_ONES;
    MaskIs(32);
    LongRuleIsOk();
    RT.LongLine(LONG_RULE);
    RT.RuleLineNulFree(LONG_RULE);
    RT.RuleSurvivesIff(LONG_RULE);
    RuleLineStart(LONG_RULE);
    var l := RT.RuleLine(LONG_RULE);
    assert SkipIndent(l) == l && SkipSlash(l) == l;
    hide RT.RuleLine, RT.Parsed, RT.FileArgv, SkipIndent, SkipSlash;
  }

  lemma LongRuleIsOk()
    requires IsMask(ALL_ONES)
    ensures RT.RuleOk(LONG_RULE) && BlankFree(LONG_RULE.keyword) && NUL !in LONG_RULE.keyword && RT.Normal(LONG_RULE) == LONG_RULE && RT.IsLong(LONG_RULE)
  {
    hide IsMask;
  }

  /** 128 lines the parser takes, each of one long rule: config_save then writes outside its buffer. */
  method FullTableOverruns(keys: seq<string>, rt: R.Table, ifs: seq<Iface>) returns (w: Written)
    requires rt.Valid()
    ensures w == Overrun
  {
    hide RT.RuleLine, RuleOf, Serialized, LONG_RULE, TextOf;
    var fw := new FW.Table();
    LongRuleIsAccepted();
    var line := RT.RuleToLine(LONG_RULE);
    for i := 0 to FW.MAX_RULE
      invariant fw.Valid() && fresh(fw) && fresh(fw.rules) && |fw.Contents()| == i
      invariant forall j :: 0 <= j < i ==> fw.Contents()[j] == LONG_RULE
    {
      var r := RuleLineOf(line);
      var _ := fw.Add(r.value);
    }
    w := Serialize(keys, fw, rt, ifs, FILE_BUF);
    TextAtLeast(RuleLines(fw.Contents()), 132);
    RulesOverrun(keys, fw.Contents(), rt.Contents(), ifs, rt.clz0, FILE_BUF);
  }

  const NET_TEN: Ip := 0x0A00_0000
  const MASK_EIGHT: Ip := 0xFF00_0000

  /** An interface with 10.0.0.1/8 and index 1. */
  predicate OnTen(it: Iface) {
    it.ip == 0x0A00_0001 && it.netmask == MASK_EIGHT && it.ifindex == 1 && RT.ShortWord(it.name, 15) && NUL !in it.name
  }

  /**
   The code loses a static route: added before the interface got its address, present beside the connected one,
   gone after a save, a load and a rebuild.
   */
  method StaticIsDropped(it: Iface, clz0: int) returns (before: seq<R.Route>, after: seq<R.Route>)
    requires OnTen(it) && T.IsInt(clz0)
    ensures |R.Only(before, true)| == 1 && R.Only(after, true) == []
  {
    hide R.Only, R.Rederived, R.Added, Loaded, Serialized, OnTen, T.IsInt, Run, RouteLines, RuleLines;
    var fw := new FW.Table();
    var rt := new R.Table(clz0);
    var _ := rt.Add(NET_TEN, MASK_EIGHT, 0, 1);
    rt.DeriveConnected([it]);
    before := rt.routes[..rt.n];
    TenIsRun(it);
    TenSurvives(it, clz0, before);
    var w := Serialize([], fw, rt, [it], FILE_BUF);
    LoadFile(Some(w.text), fw, rt, [it]);
    rt.DeriveConnected([it]);
    after := rt.routes[..rt.n];
  }

  lemma TenIsRun(it: Iface)
    ensures Run([Add(NET_TEN, MASK_EIGHT, 0, 1), Derive([it])]) == R.Rederived(R.Added([], NET_TEN, MASK_EIGHT, 0, 1), [it])
  {
    hide R.Added, R.Rederived;
    OneThenOther(Add(NET_TEN, MASK_EIGHT, 0, 1), Derive([it]));
  }

  lemma TenSurvives(it: Iface, clz0: int, s: seq<R.Route>)
    requires OnTen(it) && T.IsInt(clz0) && s == Run([Add(NET_TEN, MASK_EIGHT, 0, 1), Derive([it])])
    ensures |R.Only(s, true)| == 1 && Saved([], [], s, [it], clz0).Text?
    ensures R.Only(R.Rederived(Loaded(Saved([], [], s, [it], clz0).text, s, [it]).routes, [it]), true) == []
  {
    hide Run, R.Only, R.Rederived, Loaded, Saved, TextOf, Missing;
    var ops := [Add(NET_TEN, MASK_EIGHT, 0, 1), Derive([it])];
    StaticCanBeLost(it);
    RunIsDistinct(ops);
    TenIsSavable(it, clz0, s);
    NoText();
    SeventyFiveRulesFit([], [], s, [it], clz0);
    StaticsSurviveIff([], [], s, [it], clz0);
  }

  lemma NoText()
    ensures TextOf([]) == ""
  {}

  lemma TenIsSavable(it: Iface, clz0: int, s: seq<R.Route>)
    requires OnTen(it) && s == Run([Add(NET_TEN, MASK_EIGHT, 0, 1), Derive([it])])
    ensures StaticsSavable(s, [it], clz0) && T.RealNames([it])
  {
    TenIsRun(it);
    MaskIs(8);
    assert MaskFromPrefix(8) == MASK_EIGHT;
    TenNamed(it);
    hide Run, R.Rederived, T.Named, IsMask;
    TenStatics(it);
    OnlyHasStatics(s);
  }

  lemma TenNamed(it: Iface)
    requires it.ifindex == 1
    ensures T.Named(1, [it])
  {
    assert T.FirstByName([it], it.name) == 0;
    assert FirstByIndex([it], 1) == 0;
  }

  lemma TenStatics(it: Iface)
    ensures R.Only(R.Rederived(R.Added([], NET_TEN, MASK_EIGHT, 0, 1), [it]), true) == [R.Route(NET_TEN, MASK_EIGHT, 0, 1, true)]
  {
    var st := R.Route(NET_TEN, MASK_EIGHT, 0, 1, true);
    R.RederiveKeepsStatics([st], [it]);
    R.OnlyOfKind([st], true);
    hide R.Only, R.Rederived;
    assert R.Added([], NET_TEN, MASK_EIGHT, 0, 1) == [st];
  }

  /** The statics of a table are all its statics. */
  lemma {:induction false} OnlyHasStatics(s: seq<R.Route>)
    ensures forall i :: 0 <= i < |s| && s[i].isStatic ==> s[i] in R.Only(s, true)
  {
    if s != [] {
      OnlyHasStatics(s[..|s| - 1]);
    }
  }
}
