/** Uninstalling the firewall: a saved dump in, a restore script out that deletes what stackr
    owns. A line is its blank-separated words. */
module Purge {
  import opened Outcomes
  import opened Chains

  type Line = seq<string>
  type Rule = seq<string>

  predicate Starts(s: string, prefix: string) { prefix <= s }

  const STACKR: string := "STACKR-"
  const MOVE: string := "stackr-move"
  const EXIT_LINK: string := "wgx-"
  const TABLES: set<string> := {"filter", "nat", "raw", "mangle"}

  predicate Ours(chain: string) { Starts(chain, STACKR) }

  // ---- which rules are stackr's ----

  /** A word without the quotes around it. */
  function Trim(w: string): (r: string) {
    if w != "" && w[0] == '"' then Trim(w[1..])
    else if w != "" && w[|w| - 1] == '"' then Trim(w[..|w| - 1])
    else w
  }

  /** A flag and its value that make a rule stackr's. */
  predicate Names(flag: string, value: string) {
    || ((flag == "-j" || flag == "-g") && Starts(value, STACKR))
    || (flag == "--comment" && value == MOVE)
    || ((flag == "-i" || flag == "-o") && Starts(value, EXIT_LINK))
  }

  predicate OwnedAt(r: Rule, i: nat) { i + 1 < |r| && Names(r[i], Trim(r[i + 1])) }

  predicate Owned(r: Rule) { exists i :: 0 <= i < |r| && OwnedAt(r, i) }

  /** Word i and the one behind it name a chain, a comment or an interface of stackr's. */
  predicate Says(f: Rule, i: nat) {
    i + 1 < |f| &&
    var v := Trim(f[i + 1]);
    if f[i] in {"-j", "-g"} then "STACKR-" <= v
    else if f[i] == "--comment" then v == "stackr-move"
    else f[i] in {"-i", "-o"} && "wgx-" <= v
  }

  lemma {:induction false} TrimMeans(w: string) returns (front: string, back: string)
    ensures w == front + Trim(w) + back
    ensures forall i :: 0 <= i < |front| ==> front[i] == '"'
    ensures forall i :: 0 <= i < |back| ==> back[i] == '"'
    ensures Trim(w) != "" ==> Trim(w)[0] != '"' && Trim(w)[|Trim(w)| - 1] != '"'
    decreases |w|
  {
    if w != "" && w[0] == '"' {
      front, back := TrimMeans(w[1..]);
      front := "\"" + front;
    } else if w != "" && w[|w| - 1] == '"' {
      front, back := TrimMeans(w[..|w| - 1]);
      back := back + "\"";
    } else {
      front, back := "", "";
    }
  }

  method OwnedRule(f: Rule) returns (owned: bool)
    ensures owned <==> Owned(f)
    ensures owned <==> exists i :: 0 <= i < |f| && Says(f, i)
  {
    var i := 0;
    while i + 1 < |f|
      invariant 0 <= i <= |f| && forall j :: 0 <= j < i ==> !OwnedAt(f, j) && !Says(f, j)
    {
      var v := Trim(f[i + 1]);
      if f[i] == "-j" || f[i] == "-g" {
        if Starts(v, STACKR) {
          assert OwnedAt(f, i) && Says(f, i);
          return true;
        }
      } else if f[i] == "--comment" {
        if v == MOVE {
          assert OwnedAt(f, i) && Says(f, i);
          return true;
        }
      } else if f[i] == "-i" || f[i] == "-o" {
        if Starts(v, EXIT_LINK) {
          assert OwnedAt(f, i) && Says(f, i);
          return true;
        }
      }
      i := i + 1;
    }
    return false;
  }

  /** The kernel's view: the rule's target is chain c. */
  predicate Refers(r: Rule, c: string) {
    exists i :: 0 <= i < |r| && i + 1 < |r| && (r[i] == "-j" || r[i] == "-g") && Trim(r[i + 1]) == c
  }

  // ---- the scan ----

  datatype Scan = Scan(table: string, del: seq<Line>, chains: seq<string>, out: seq<Line>)

  function DelLine(chain: string, r: Rule): Line { ["-D", chain] + r }

  function Flushes(chains: seq<string>): seq<Line> { seq(|chains|, i requires 0 <= i < |chains| => ["-F", chains[i]]) }
  function Drops(chains: seq<string>): seq<Line> { seq(|chains|, i requires 0 <= i < |chains| => ["-X", chains[i]]) }

  function Section(table: string, del: seq<Line>, chains: seq<string>): seq<Line> {
    if del == [] && chains == [] then []
    else [["*" + table]] + (del + Flushes(chains) + Drops(chains)) + [["COMMIT"]]
  }

  predicate OpensTable(l: Line) { l != [] && Starts(l[0], "*") }
  predicate Declares(l: Line) { l != [] && Starts(l[0], ":") }
  predicate AppendsRule(l: Line) { |l| >= 2 && l[0] == "-A" }

  function TableName(l: Line): string
    requires OpensTable(l)
  {
    if |l| == 1 then l[0][1..] else ""
  }

  function ScanLine(s: Scan, l: Line): Scan {
    if OpensTable(l) then Scan(TableName(l), [], [], s.out)
    else if l == ["COMMIT"] then
      Scan("", [], [], if s.table in TABLES then s.out + Section(s.table, s.del, s.chains) else s.out)
    else if Declares(l) then
      if Ours(l[0][1..]) then s.(chains := s.chains + [l[0][1..]]) else s
    else if AppendsRule(l) then
      if !Ours(l[1]) && Owned(l[2..]) then s.(del := s.del + [DelLine(l[1], l[2..])]) else s
    else s
  }

  function ScanAll(save: seq<Line>): Scan {
    if save == [] then Scan("", [], [], []) else ScanLine(ScanAll(save[..|save| - 1]), save[|save| - 1])
  }

  function Payload(save: seq<Line>): seq<Line> { ScanAll(save).out }

  method IptablesPurge(save: seq<Line>) returns (out: seq<Line>)
    ensures out == Payload(save)
  {
    out := [];
    var table, del, chains := "", [], [];
    var i := 0;
    while i < |save|
      invariant 0 <= i <= |save| && ScanAll(save[..i]) == Scan(table, del, chains, out)
    {
      var line := save[i];
      assert save[..i + 1][..i] == save[..i];
      if OpensTable(line) {
        table, del, chains := TableName(line), [], [];
      } else if line == ["COMMIT"] {
        if table in TABLES {
          var section := WriteSection(table, del, chains);
          out := out + section;
        }
        table, del, chains := "", [], [];
      } else if Declares(line) {
        if Ours(line[0][1..]) {
          chains := chains + [line[0][1..]];
        }
      } else if AppendsRule(line) {
        var owned := OwnedRule(line[2..]);
        if !Ours(line[1]) && owned {
          del := del + [DelLine(line[1], line[2..])];
        }
      }
      i := i + 1;
    }
    assert save[..i] == save;
  }

  lemma SectionLines(table: string, del: seq<Line>, chains: seq<string>)
    requires |del| + |chains| > 0
    ensures [["*" + table]] + del + Flushes(chains) + Drops(chains) + [["COMMIT"]] == Section(table, del, chains)
  {
    var t, f, d := [["*" + table]], Flushes(chains), Drops(chains);
    assert t + del + f + d == t + (del + f + d);
  }

  lemma OneMoreChain(chains: seq<string>, i: nat)
    requires i < |chains|
    ensures Flushes(chains[..i + 1]) == Flushes(chains[..i]) + [["-F", chains[i]]]
    ensures Drops(chains[..i + 1]) == Drops(chains[..i]) + [["-X", chains[i]]]
  {
  }

  method WriteSection(table: string, del: seq<Line>, chains: seq<string>) returns (out: seq<Line>)
    ensures out == Section(table, del, chains)
  {
    if |del| + |chains| == 0 {
      return [];
    }
    out := [["*" + table]] + del;
    ghost var head := out;
    SectionLines(table, del, chains);
    var i := 0;
    while i < |chains|
      invariant 0 <= i <= |chains| && out == head + Flushes(chains[..i])
    {
      OneMoreChain(chains, i);
      out := out + [["-F", chains[i]]];
      i := i + 1;
    }
    assert chains[..i] == chains;
    ghost var flushed := out;
    i := 0;
    while i < |chains|
      invariant 0 <= i <= |chains| && out == flushed + Drops(chains[..i])
    {
      OneMoreChain(chains, i);
      out := out + [["-X", chains[i]]];
      i := i + 1;
    }
    assert chains[..i] == chains;
    out := out + [["COMMIT"]];
  }

  // ---- what a dump says the kernel holds ----

  datatype Chain = Chain(policy: string, rules: seq<Rule>)
  type Table = map<string, Chain>
  type Tables = map<string, Table>

  const BUILTIN: set<string> := {"PREROUTING", "INPUT", "FORWARD", "OUTPUT", "POSTROUTING"}

  datatype Loading = Loading(tables: Tables, open: Option<string>)

  /** One line of a dump; None when no kernel would have printed it there. */
  function LoadLine(s: Loading, l: Line): Option<Loading> {
    if OpensTable(l) then
      if s.open == None && |l| == 1 && TableName(l) !in s.tables then
        Some(Loading(s.tables[TableName(l) := map[]], Some(TableName(l))))
      else None
    else if l == ["COMMIT"] then
      if s.open.Some? then Some(s.(open := None)) else None
    else if Declares(l) then
      var c := l[0][1..];
      if s.open.Some? && s.open.value in s.tables && |l| >= 2 && c !in s.tables[s.open.value] &&
        (l[1] != "-" <==> c in BUILTIN) then
        Some(s.(tables := s.tables[s.open.value := s.tables[s.open.value][c := Chain(l[1], [])]]))
      else None
    else if AppendsRule(l) then
      if s.open.Some? && s.open.value in s.tables && l[1] in s.tables[s.open.value] then
        var t := s.tables[s.open.value];
        Some(s.(tables := s.tables[s.open.value := t[l[1] := t[l[1]].(rules := t[l[1]].rules + [l[2..]])]]))
      else None
    else if l == [] || Starts(l[0], "#") then Some(s)
    else None
  }

  function LoadAll(save: seq<Line>): Option<Loading> {
    if save == [] then Some(Loading(map[], None))
    else
      match LoadAll(save[..|save| - 1])
      case None => None
      case Some(s) => LoadLine(s, save[|save| - 1])
  }

  /** The tables a whole dump describes, if it is one. */
  function Load(save: seq<Line>): Option<Tables> {
    match LoadAll(save)
    case Some(Loading(tables, None)) => Some(tables)
    case _ => None
  }

  // ---- what restoring a script without flushing does ----

  predicate Referred(t: Table, c: string) {
    exists k, i :: k in t && 0 <= i < |t[k].rules| && Refers(t[k].rules[i], c)
  }

  function EditLine(t: Table, l: Line): Option<Table> {
    if |l| < 2 || l[1] !in t then None
    else if l[0] == "-D" then
      if l[2..] in t[l[1]].rules then Some(t[l[1] := t[l[1]].(rules := RemoveFirst(t[l[1]].rules, l[2..]))]) else None
    else if l[0] == "-F" then Some(t[l[1] := t[l[1]].(rules := [])])
    else if l[0] == "-X" then
      if t[l[1]].policy == "-" && t[l[1]].rules == [] && !Referred(t, l[1]) then Some(t - {l[1]}) else None
    else None
  }

  function EditAll(t: Table, ls: seq<Line>): Option<Table>
    decreases |ls|
  {
    if ls == [] then Some(t)
    else
      match EditLine(t, ls[0])
      case None => None
      case Some(u) => EditAll(u, ls[1..])
  }

  /** A table's edits take hold together, at its commit. */
  datatype Restoring = Restoring(tables: Tables, open: Option<string>, stage: Table)

  function RestoreLine(s: Restoring, l: Line): Option<Restoring> {
    if OpensTable(l) then
      if s.open == None && TableName(l) in s.tables then
        Some(Restoring(s.tables, Some(TableName(l)), s.tables[TableName(l)]))
      else None
    else if s.open == None then None
    else if l == ["COMMIT"] then Some(Restoring(s.tables[s.open.value := s.stage], None, map[]))
    else
      match EditLine(s.stage, l)
      case None => None
      case Some(t) => Some(s.(stage := t))
  }

  function RestoreAll(s: Restoring, ls: seq<Line>): Option<Restoring>
    decreases |ls|
  {
    if ls == [] then Some(s)
    else
      match RestoreLine(s, ls[0])
      case None => None
      case Some(r) => RestoreAll(r, ls[1..])
  }

  /** None: some line of the script failed. */
  function Restore(tables: Tables, script: seq<Line>): Option<Tables> {
    match RestoreAll(Restoring(tables, None, map[]), script)
    case Some(Restoring(after, None, _)) => Some(after)
    case _ => None
  }

  // ---- what is to be left ----

  function Kept(rs: seq<Rule>): seq<Rule> {
    if rs == [] then [] else (if Owned(rs[0]) then [] else [rs[0]]) + Kept(rs[1..])
  }

  function Taken(rs: seq<Rule>): seq<Rule> {
    if rs == [] then [] else (if Owned(rs[0]) then [rs[0]] else []) + Taken(rs[1..])
  }

  function PurgedTable(t: Table): Table {
    map c | c in t && !Ours(c) :: t[c].(rules := Kept(t[c].rules))
  }

  function Purged(tables: Tables): Tables {
    map t | t in tables :: if t in TABLES then PurgedTable(tables[t]) else tables[t]
  }
}
