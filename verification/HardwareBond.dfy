/** The two inspection parsers that read the bonding probe line by line, `parseBond` and
    `parseNIC`, and their agreement with `parseBonds` on the text a host prints. */
module HardwareBond {
  import opened Text
  import opened BondText
  import opened Inspect

  const NO_BONDS := "(no bonds)"
  const TOTAL := "link_failure_total"

  function AtoiOrZero(s: string): int {
    match Atoi(s)
    case Some(n) => n
    case None => 0
  }

  /** The part of a line behind the file name, trimmed. */
  function Rest(line: string): Option<string> {
    match Cut(line, ':')
    case None => None
    case Some((_, rest)) => Some(TrimSpace(rest))
  }

  /** The value behind the key of a trimmed line, trimmed. */
  function ValueOf(rest: string): Option<string> {
    match Cut(rest, ':')
    case None => None
    case Some((_, v)) => Some(TrimSpace(v))
  }

  // ---- parseBond ----

  datatype Tally = Tally(total: int, down: bool)

  function Count(t: Tally, line: string): Tally {
    match Rest(line)
    case None => t
    case Some(rest) =>
      if HasPrefix(rest, "Link Failure Count") then
        match ValueOf(rest)
        case None => t
        case Some(v) => t.(total := t.total + AtoiOrZero(v))
      else if HasPrefix(rest, "MII Status") then
        if ValueOf(rest).Some? && ValueOf(rest).value != "up" then t.(down := true) else t
      else t
  }

  function CountAll(t: Tally, lines: seq<string>): Tally
    decreases |lines|
  {
    if lines == [] then t else CountAll(Count(t, lines[0]), lines[1..])
  }

  function BondFinding(raw: string): Finding {
    var f := Finding("hw_bond", "", "", OK, "", map[], raw, "");
    if Contains(raw, NO_BONDS) then f.(summary := "无 bond 配置")
    else
      var t := CountAll(Tally(0, false), Split(raw, '\n'));
      var f := f.(metrics := map[TOTAL := Itoa(t.total)]);
      if t.down then f.(level := Critical, summary := "存在 MII Status 非 up 的 bond", advice := "检查物理链路与交换机端口")
      else if t.total > 0 then f.(level := Warn, summary := "bond 累计 Link Failure " + Itoa(t.total) + " 次")
      else f.(summary := "bond 链路正常")
  }

  /** For any text: Critical when a line shows a link that is not up, else Warn when the total is
      positive, else OK, and the total is kept unless there is no bond. */
  lemma BondFindingMeans(raw: string)
    ensures var f, t, none := BondFinding(raw), CountAll(Tally(0, false), Split(raw, '\n')), Contains(raw, NO_BONDS);
      && f.item == "hw_bond" && f.detail == raw && f.node == "" && f.nodeIP == ""
      && (f.level == Critical <==> !none && t.down)
      && (f.level == Warn <==> !none && !t.down && t.total > 0)
      && (f.level == OK <==> none || (!t.down && t.total <= 0))
      && (TOTAL in f.metrics <==> !none)
      && (TOTAL in f.metrics ==> Atoi(f.metrics[TOTAL]) == Some(t.total))
  {
    hide Contains, CountAll, Split, Itoa, Atoi;
    AtoiOfItoa(CountAll(Tally(0, false), Split(raw, '\n')).total);
  }

  method ParseBond(raw: string) returns (f: Finding)
    ensures f == BondFinding(raw)
  {
    hide IsSpace, TrimSpace, Cut, Contains, Atoi, AtoiOrZero, Itoa, Split, HasPrefix;
    f := Finding("hw_bond", "", "", OK, "", map[], raw, "");
    if Contains(raw, NO_BONDS) {
      f := f.(level := OK, summary := "无 bond 配置");
      return;
    }
    var failTotal := 0;
    var miiDown := false;
    var lines := Split(raw, '\n');
    assert lines[0..] == lines;
    for i := 0 to |lines|
      invariant CountAll(Tally(0, false), lines) == CountAll(Tally(failTotal, miiDown), lines[i..])
    {
      assert lines[i..][0] == lines[i] && lines[i..][1..] == lines[i + 1..];
      var cut := Cut(lines[i], ':');
      if cut.None? { continue; }
      var rest := TrimSpace(cut.value.1);
      if HasPrefix(rest, "Link Failure Count") {
        var kv := Cut(rest, ':');
        if kv.Some? {
          failTotal := failTotal + AtoiOrZero(TrimSpace(kv.value.1));
        }
      } else if HasPrefix(rest, "MII Status") {
        var kv := Cut(rest, ':');
        if kv.Some? && TrimSpace(kv.value.1) != "up" {
          miiDown := true;
        }
      }
    }
    assert lines[|lines|..] == [];
    f := f.(metrics := map[TOTAL := Itoa(failTotal)]);
    if miiDown {
      f := f.(level := Critical, summary := "存在 MII Status 非 up 的 bond", advice := "检查物理链路与交换机端口");
    } else if failTotal > 0 {
      f := f.(level := Warn, summary := "bond 累计 Link Failure " + Itoa(failTotal) + " 次");
    } else {
      f := f.(level := OK, summary := "bond 链路正常");
    }
  }

  // ---- parseNIC ----

  datatype Scan = Scan(slave: string, down: seq<string>)

  function Look(s: Scan, line: string): Scan {
    match Rest(line)
    case None => s
    case Some(rest) =>
      if HasPrefix(rest, "Slave Interface") then
        match ValueOf(rest)
        case None => s
        case Some(v) => s.(slave := v)
      else if HasPrefix(rest, "MII Status") then
        Scan("", if ValueOf(rest).Some? && s.slave != "" && ValueOf(rest).value != "up"
                   then s.down + [s.slave] else s.down)
      else s
  }

  function LookAll(s: Scan, lines: seq<string>): Scan
    decreases |lines|
  {
    if lines == [] then s else LookAll(Look(s, lines[0]), lines[1..])
  }

  /** The member ports `parseNIC` reports, in order. */
  function DownPorts(raw: string): seq<string> {
    LookAll(Scan("", []), Split(raw, '\n')).down
  }

  function NicFinding(raw: string): Finding {
    var f := Finding("hw_nic", "", "", OK, "", map[], raw, "");
    if Contains(raw, NO_BONDS) then f.(summary := "无 bond 成员口")
    else
      var down := DownPorts(raw);
      if |down| > 0 then
        f.(level := Warn, summary := "bond 成员口未 up：" + JoinWith(down, ", "), advice := "检查对应物理网口连线与交换机端口")
      else f.(summary := "bond 成员口状态正常")
  }

  /** For any text: Warn exactly when there is a member to report, and the summary ends with them
      all; otherwise OK. The text itself is kept. */
  lemma NicFindingMeans(raw: string)
    ensures var f, down := NicFinding(raw), DownPorts(raw);
      && f.item == "hw_nic" && f.detail == raw && f.metrics == map[]
      && (f.level == Warn <==> !Contains(raw, NO_BONDS) && down != [])
      && (f.level == OK <==> Contains(raw, NO_BONDS) || down == [])
      && (f.level == Warn ==> HasSuffix(f.summary, JoinWith(down, ", ")))
  {
    hide Contains, DownPorts, JoinWith;
  }

  method ParseNIC(raw: string) returns (f: Finding)
    ensures f == NicFinding(raw)
  {
    hide IsSpace, TrimSpace, Cut, Contains, Atoi, AtoiOrZero, Itoa, Split, HasPrefix;
    f := Finding("hw_nic", "", "", OK, "", map[], raw, "");
    if Contains(raw, NO_BONDS) {
      f := f.(level := OK, summary := "无 bond 成员口");
      return;
    }
    var down: seq<string> := [];
    var curSlave := "";
    var lines := Split(raw, '\n');
    assert lines[0..] == lines;
    for i := 0 to |lines|
      invariant LookAll(Scan("", []), lines) == LookAll(Scan(curSlave, down), lines[i..])
    {
      assert lines[i..][0] == lines[i] && lines[i..][1..] == lines[i + 1..];
      var cut := Cut(lines[i], ':');
      if cut.None? { continue; }
      var rest := TrimSpace(cut.value.1);
      if HasPrefix(rest, "Slave Interface") {
        var kv := Cut(rest, ':');
        if kv.Some? {
          curSlave := TrimSpace(kv.value.1);
        }
      } else if HasPrefix(rest, "MII Status") {
        var kv := Cut(rest, ':');
        if kv.Some? && curSlave != "" && TrimSpace(kv.value.1) != "up" {
          down := down + [curSlave];
        }
        curSlave := "";
      }
    }
    assert lines[|lines|..] == [];
    if |down| > 0 {
      f := f.(level := Warn, summary := "bond 成员口未 up：" + JoinWith(down, ", "), advice := "检查对应物理网口连线与交换机端口");
    } else {
      f := f.(level := OK, summary := "bond 成员口状态正常");
    }
  }

  // ---- agreement on printed text ----

  lemma {:induction false} SplitOfUnlines(ls: seq<string>)
    requires forall l <- ls :: '\n' !in l
    ensures Split(Unlines(ls), '\n') == ls + [""]
  {
    hide Cut, IndexOf;
    if ls == [] {
      assert Split("", '\n') == [""];
    } else {
      assert '\n' !in ls[0];
      SplitOfUnlines(ls[1..]);
      SplitAt(ls[0], '\n', Unlines(ls[1..]));
      assert ls[0] + ['\n'] + Unlines(ls[1..]) == Unlines(ls);
      assert [ls[0]] + ls[1..] == ls;
    }
  }

  /** Both inspection parsers see the key and value a line was printed from. */
  lemma RestOfLine(e: Entry)
    requires EntryText(e)
    ensures Rest(Line(e)).Some?
    ensures var rest := Rest(Line(e)).value; e.key + ":" <= rest && ValueOf(rest) == Some(e.value)
  {
    hide IsSpace, TrimSpace, TrimLeft, TrimRight, Cut, KnownKey, IndexOf;
    KnownKeyShape(e.key);
    var head := BOND_DIR + e.bond;
    var body := e.key + ": " + e.value;
    assert Line(e) == head + [':'] + body;
    CutAt(head, ':', body);
    BodyTrim(e.key, e.value);
    if e.value == "" {
      assert e.key + ":" == e.key + [':'] + "";
      CutAt(e.key, ':', "");
      TrimOfTrimmed("");
    } else {
      assert body == e.key + [':'] + (" " + e.value);
      CutAt(e.key, ':', " " + e.value);
      TrimSpaceAfterBlank(e.value);
    }
  }

  lemma KeyPrefix(key: string, rest: string)
    requires KnownKey(key) && key + ":" <= rest
    ensures HasPrefix(rest, "Link Failure Count") <==> key == "Link Failure Count"
    ensures HasPrefix(rest, "MII Status") <==> key == "MII Status"
    ensures HasPrefix(rest, "Slave Interface") <==> key == "Slave Interface"
  {
    assert rest[0] == key[0];
    assert key <= rest;
  }

  function CountEntry(t: Tally, e: Entry): Tally {
    if e.key == "Link Failure Count" then t.(total := t.total + AtoiOrZero(e.value))
    else if e.key == "MII Status" && e.value != "up" then t.(down := true)
    else t
  }

  function CountEntries(t: Tally, es: seq<Entry>): Tally
    decreases |es|
  {
    if es == [] then t else CountEntries(CountEntry(t, es[0]), es[1..])
  }

  function LookEntry(s: Scan, e: Entry): Scan {
    if e.key == "Slave Interface" then s.(slave := e.value)
    else if e.key == "MII Status" then Scan("", if s.slave != "" && e.value != "up" then s.down + [s.slave] else s.down)
    else s
  }

  function LookEntries(s: Scan, es: seq<Entry>): Scan
    decreases |es|
  {
    if es == [] then s else LookEntries(LookEntry(s, es[0]), es[1..])
  }

  lemma BlankLine(t: Tally, s: Scan)
    ensures CountAll(t, [""]) == t && LookAll(s, [""]) == s
  {
    assert [""][1..] == [];
    assert Rest("").None?;
  }

  lemma LineEffect(t: Tally, s: Scan, e: Entry)
    requires EntryText(e)
    ensures Count(t, Line(e)) == CountEntry(t, e) && Look(s, Line(e)) == LookEntry(s, e)
  {
    hide Rest, ValueOf, Line, HasPrefix, FieldText, FileNameText, Atoi;
    RestOfLine(e);
    KeyPrefix(e.key, Rest(Line(e)).value);
  }

  lemma {:induction false} CountOfLines(t: Tally, s: Scan, es: seq<Entry>)
    requires forall e <- es :: EntryText(e)
    ensures CountAll(t, Lines(es) + [""]) == CountEntries(t, es)
    ensures LookAll(s, Lines(es) + [""]) == LookEntries(s, es)
    decreases |es|
  {
    hide EntryText, Line, Count, Look, CountEntry, LookEntry;
    var ls := Lines(es) + [""];
    if es == [] {
      assert ls == [""];
      BlankLine(t, s);
    } else {
      assert ls[0] == Line(es[0]) && ls[1..] == Lines(es[1..]) + [""];
      LineEffect(t, s, es[0]);
      CountOfLines(Count(t, ls[0]), Look(s, ls[0]), es[1..]);
    }
  }

  // ---- what the two scans add up over whole bonds ----

  function FailureSum(slaves: seq<Port>): int {
    if slaves == [] then 0 else AtoiOrZero(slaves[0].failures) + FailureSum(slaves[1..])
  }

  /** All link failures in the parsed records. */
  function TotalFailures(recs: seq<BondRecord>): int {
    if recs == [] then 0 else FailureSum(recs[0].slaves) + TotalFailures(recs[1..])
  }

  function NotUp(slaves: seq<Port>): seq<string> {
    if slaves == [] then []
    else (if slaves[0].mii != "up" then [slaves[0].name] else []) + NotUp(slaves[1..])
  }

  /** The members whose parsed status is not up, in order. */
  function AllNotUp(recs: seq<BondRecord>): seq<string> {
    if recs == [] then [] else NotUp(recs[0].slaves) + AllNotUp(recs[1..])
  }

  /** Some bond-level or member status is not up. */
  predicate SomeDown(bonds: seq<BondFile>) {
    exists b <- bonds :: BondDown(b)
  }

  predicate BondDown(b: BondFile) {
    b.mii != "up" || PortsDown(b.ports)
  }

  predicate PortsDown(ports: seq<Port>) {
    exists p <- ports :: p.mii != "up"
  }

  lemma PortsDownCons(ports: seq<Port>)
    requires ports != []
    ensures PortsDown(ports) <==> ports[0].mii != "up" || PortsDown(ports[1..])
  {
    assert ports == [ports[0]] + ports[1..];
  }

  lemma SomeDownCons(bonds: seq<BondFile>)
    requires bonds != []
    ensures SomeDown(bonds) <==> BondDown(bonds[0]) || SomeDown(bonds[1..])
  {
    hide BondDown;
    assert bonds == [bonds[0]] + bonds[1..];
  }

  lemma FailureSumCons(ports: seq<Port>, keys: Keys)
    requires ports != []
    ensures FailureSum(SeenPorts(ports, keys))
         == AtoiOrZero(Seen(ports[0], keys).failures) + FailureSum(SeenPorts(ports[1..], keys))
    ensures NotUp(SeenPorts(ports, keys))
         == (if ports[0].mii != "up" then [ports[0].name] else []) + NotUp(SeenPorts(ports[1..], keys))
  {
    hide AtoiOrZero;
    assert SeenPorts(ports, keys)[1..] == SeenPorts(ports[1..], keys);
  }

  lemma TotalsCons(bonds: seq<BondFile>, keys: Keys)
    requires bonds != []
    ensures TotalFailures(SeenBonds(bonds, keys))
         == FailureSum(SeenBond(bonds[0], keys).slaves) + TotalFailures(SeenBonds(bonds[1..], keys))
    ensures AllNotUp(SeenBonds(bonds, keys))
         == NotUp(SeenBond(bonds[0], keys).slaves) + AllNotUp(SeenBonds(bonds[1..], keys))
  {
    hide FailureSum, NotUp, SeenBond;
    assert SeenBonds(bonds, keys)[1..] == SeenBonds(bonds[1..], keys);
  }

  lemma {:induction false} CountAppend(t: Tally, s: Scan, a: seq<Entry>, b: seq<Entry>)
    ensures CountEntries(t, a + b) == CountEntries(CountEntries(t, a), b)
    ensures LookEntries(s, a + b) == LookEntries(LookEntries(s, a), b)
    decreases |a|
  {
    if a == [] {
      assert a + b == b;
    } else {
      assert (a + b)[0] == a[0] && (a + b)[1..] == a[1..] + b;
      CountAppend(CountEntry(t, a[0]), LookEntry(s, a[0]), a[1..], b);
    }
  }

  lemma {:induction false} CountPorts(t: Tally, s: Scan, bond: string, ports: seq<Port>, keys: Keys)
    requires s.slave == "" && forall p <- ports :: PortText(p)
    ensures CountEntries(t, PortEntries(bond, ports, keys))
         == Tally(t.total + FailureSum(SeenPorts(ports, keys)), t.down || PortsDown(ports))
    ensures LookEntries(s, PortEntries(bond, ports, keys)) == Scan("", s.down + NotUp(SeenPorts(ports, keys)))
    decreases |ports|
  {
    hide CountEntries, LookEntries, AtoiOrZero, PortEntries, Seen, SeenPorts, FailureSum, NotUp, PortsDown, PortText;
    if ports == [] {
      NoEntries(t, s);
      NoPortEntries(bond, keys);
      NoPortSums(keys);
    } else {
      var p := ports[0];
      var head := PortEntries(bond, [p], keys);
      PortEntriesCons(bond, ports, keys);
      CountAppend(t, s, head, PortEntries(bond, ports[1..], keys));
      OnePort(t, s, bond, p, keys);
      CountPorts(CountEntries(t, head), LookEntries(s, head), bond, ports[1..], keys);
      FailureSumCons(ports, keys);
      PortsDownCons(ports);
    }
  }

  lemma NoPortSums(keys: Keys)
    ensures FailureSum(SeenPorts([], keys)) == 0 && NotUp(SeenPorts([], keys)) == [] && !PortsDown([])
  {
  }

  lemma OnePort(t: Tally, s: Scan, bond: string, p: Port, keys: Keys)
    requires s.slave == "" && PortText(p)
    ensures CountEntries(t, PortEntries(bond, [p], keys))
         == Tally(t.total + AtoiOrZero(Seen(p, keys).failures), t.down || p.mii != "up")
    ensures LookEntries(s, PortEntries(bond, [p], keys))
         == Scan("", s.down + if p.mii != "up" then [p.name] else [])
  {
    var es := PortEntries(bond, [p], keys);
    var e1, e2 := Entry(bond, "Slave Interface", p.name), Entry(bond, "MII Status", p.mii);
    var e3 := Entry(bond, "Link Failure Count", p.failures);
    assert PortEntries(bond, [p][1..], keys) == [];
    assert es == if keys.failures then [e1, e2, e3] else [e1, e2];
    CountOne(t, s, e1);
    CountOne(CountEntry(t, e1), LookEntry(s, e1), e2);
    CountAppend(t, s, [e1], [e2]);
    if keys.failures {
      assert es == ([e1] + [e2]) + [e3];
      CountOne(CountEntry(CountEntry(t, e1), e2), LookEntry(LookEntry(s, e1), e2), e3);
      CountAppend(t, s, [e1] + [e2], [e3]);
    } else {
      assert es == [e1] + [e2];
      assert AtoiOrZero("") == 0;
    }
  }

  lemma CountOne(t: Tally, s: Scan, e: Entry)
    ensures CountEntries(t, [e]) == CountEntry(t, e) && LookEntries(s, [e]) == LookEntry(s, e)
  {
    assert [e][1..] == [];
  }

  lemma {:induction false} CountBonds(t: Tally, s: Scan, bonds: seq<BondFile>, keys: Keys)
    requires s.slave == "" && forall b <- bonds :: BondFileText(b)
    ensures CountEntries(t, AllEntries(bonds, keys))
         == Tally(t.total + TotalFailures(SeenBonds(bonds, keys)), t.down || SomeDown(bonds))
    ensures LookEntries(s, AllEntries(bonds, keys)) == Scan("", s.down + AllNotUp(SeenBonds(bonds, keys)))
    decreases |bonds|
  {
    hide BondFileText, CountEntries, LookEntries, BondEntries, FailureSum, NotUp, SeenBond, SeenBonds,
      TotalFailures, AllNotUp, SomeDown, BondDown;
    if bonds == [] {
      NoEntries(t, s);
      NoBondSums(keys);
    } else {
      var b := bonds[0];
      var es := BondEntries(b, keys);
      CountAppend(t, s, es, AllEntries(bonds[1..], keys));
      OneBond(t, s, b, keys);
      CountBonds(CountEntries(t, es), LookEntries(s, es), bonds[1..], keys);
      TotalsCons(bonds, keys);
      SomeDownCons(bonds);
    }
  }

  lemma NoBondSums(keys: Keys)
    ensures TotalFailures(SeenBonds([], keys)) == 0 && AllNotUp(SeenBonds([], keys)) == [] && !SomeDown([])
  {
  }

  lemma NoEntries(t: Tally, s: Scan)
    ensures CountEntries(t, []) == t && LookEntries(s, []) == s
  {
  }

  lemma OneBond(t: Tally, s: Scan, b: BondFile, keys: Keys)
    requires s.slave == "" && BondFileText(b)
    ensures CountEntries(t, BondEntries(b, keys))
         == Tally(t.total + FailureSum(SeenBond(b, keys).slaves),
                  t.down || BondDown(b))
    ensures LookEntries(s, BondEntries(b, keys)) == Scan("", s.down + NotUp(SeenBond(b, keys).slaves))
  {
    hide CountEntries, LookEntries, PortEntries, PortsDown, FailureSum, NotUp, SeenPorts;
    var e0, e1 := Entry(b.name, "Bonding Mode", b.mode), Entry(b.name, "MII Status", b.mii);
    var mode := if keys.mode then [e0] else [];
    CountAppend(t, s, mode + [e1], PortEntries(b.name, b.ports, keys));
    CountAppend(t, s, mode, [e1]);
    CountOne(t, s, e0);
    NoEntries(t, s);
    CountOne(t, s, e1);
    var t', s' := CountEntries(t, mode + [e1]), LookEntries(s, mode + [e1]);
    assert t' == Tally(t.total, t.down || b.mii != "up") && s' == s;
    CountPorts(t', s', b.name, b.ports, keys);
  }

  /** The two scans over a printed text, in terms of the bonds it was printed from. */
  lemma PrintedTally(bonds: seq<BondFile>, keys: Keys)
    requires Printable(bonds) && bonds != []
    ensures var lines := Split(Print(bonds, keys, NO_BONDS), '\n');
      && CountAll(Tally(0, false), lines) == Tally(TotalFailures(SeenBonds(bonds, keys)), SomeDown(bonds))
      && LookAll(Scan("", []), lines) == Scan("", AllNotUp(SeenBonds(bonds, keys)))
  {
    hide EntryText, Line, SomeDown, CountEntries, LookEntries, AllNotUp,
      TotalFailures, CountAll, LookAll, Split, SeenBonds;
    var es := AllEntries(bonds, keys);
    AllEntriesText(bonds, keys);
    forall l | l in Lines(es) ensures '\n' !in l {
      var k :| 0 <= k < |es| && Lines(es)[k] == l;
      LineShape(es[k]);
    }
    SplitOfUnlines(Lines(es));
    CountOfLines(Tally(0, false), Scan("", []), es);
    CountBonds(Tally(0, false), Scan("", []), bonds, keys);
  }

  /** All link failures the host shows. */
  function HostFailures(bonds: seq<BondFile>): int {
    if bonds == [] then 0 else FailureSum(bonds[0].ports) + HostFailures(bonds[1..])
  }

  /** A probe that asks for failure counts sees them all. */
  lemma {:induction false} HostFailuresSeen(bonds: seq<BondFile>, keys: Keys)
    requires keys.failures
    ensures TotalFailures(SeenBonds(bonds, keys)) == HostFailures(bonds)
  {
    hide FailureSum, NotUp, SeenBonds, TotalFailures, AllNotUp;
    if bonds == [] {
      NoBondSums(keys);
    } else {
      TotalsCons(bonds, keys);
      assert SeenPorts(bonds[0].ports, keys) == bonds[0].ports;
      HostFailuresSeen(bonds[1..], keys);
    }
  }

  /** Main result: on the text a host prints, the three parsers agree. `parseBond` records
      the sum of the failure counts `parseBonds` recovers and is Critical exactly when some
      bond-level or member status is not up; `parseNIC` lists exactly the members whose
      parsed status is not up, in order. */
  lemma ParsersAgree(bonds: seq<BondFile>, keys: Keys)
    requires Printable(bonds) && bonds != []
    requires !Contains(Print(bonds, keys, NO_BONDS), NO_BONDS)
    ensures var raw := Print(bonds, keys, NO_BONDS);
      var recs := Parsed(raw);
      var f := BondFinding(raw);
      && f.metrics == map[TOTAL := Itoa(TotalFailures(recs))]
      && (f.level == Critical <==> SomeDown(bonds))
      && (f.level == Warn <==> !SomeDown(bonds) && TotalFailures(recs) > 0)
      && f.level != Unknown
      && DownPorts(raw) == AllNotUp(recs)
      && f.item == "hw_bond" && NicFinding(raw).item == "hw_nic"
      && (NicFinding(raw).level == Warn <==> AllNotUp(recs) != [])
      && (NicFinding(raw).level == OK <==> AllNotUp(recs) == [])
  {
    hide Contains, Parsed, SomeDown, AllNotUp, TotalFailures, CountAll, LookAll,
      Split, Print, SeenBonds, Printable, Itoa, JoinWith;
    ParseOfPrint(bonds, keys, NO_BONDS);
    PrintedTally(bonds, keys);
  }
}
