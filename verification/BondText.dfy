/** The bonding probe: the text `grep -H` prints for /proc/net/bonding/bond*, and the
    parser `parseBonds` that reads it back, first as a fold over the decoded lines and
    then as the loop over shared records that the program runs. */
module BondText {
  import opened Text

  const BOND_DIR := "/proc/net/bonding/"

  // ---- what the kernel shows ----

  /** One member port: its name, MII status and link failure count, as printed. */
  datatype Port = Port(name: string, mii: string, failures: string)

  /** One file under /proc/net/bonding. */
  datatype BondFile = BondFile(name: string, mode: string, mii: string, ports: seq<Port>)

  /** Which optional keys a probe asks grep for; `Slave Interface` and `MII Status` always are. */
  datatype Keys = Keys(mode: bool, failures: bool)

  /** One line of the probe, taken apart. */
  datatype Entry = Entry(bond: string, key: string, value: string)

  /** What a field can hold: one line, without white space around it. */
  predicate FieldText(s: string) {
    Trimmed(s) && '\n' !in s
  }

  predicate FileNameText(s: string) {
    ':' !in s && '\n' !in s
  }

  predicate PortText(p: Port) {
    FieldText(p.name) && p.name != "" && FieldText(p.mii) && FieldText(p.failures)
  }

  predicate BondFileText(b: BondFile) {
    FileNameText(b.name) && FieldText(b.mode) && FieldText(b.mii) && forall p <- b.ports :: PortText(p)
  }

  predicate DistinctNames(bonds: seq<BondFile>) {
    forall i, j :: 0 <= i < j < |bonds| ==> bonds[i].name != bonds[j].name
  }

  /** The printable state of one host's bonds. */
  predicate Printable(bonds: seq<BondFile>) {
    DistinctNames(bonds) && forall b <- bonds :: BondFileText(b)
  }

  function PortEntries(bond: string, ports: seq<Port>, keys: Keys): seq<Entry> {
    if ports == [] then []
    else
      [Entry(bond, "Slave Interface", ports[0].name), Entry(bond, "MII Status", ports[0].mii)]
      + (if keys.failures then [Entry(bond, "Link Failure Count", ports[0].failures)] else [])
      + PortEntries(bond, ports[1..], keys)
  }

  lemma NoPortEntries(bond: string, keys: Keys)
    ensures PortEntries(bond, [], keys) == []
  {
  }

  lemma PortEntriesCons(bond: string, ports: seq<Port>, keys: Keys)
    requires ports != []
    ensures PortEntries(bond, ports, keys) == PortEntries(bond, [ports[0]], keys) + PortEntries(bond, ports[1..], keys)
  {
    assert PortEntries(bond, [ports[0]][1..], keys) == [];
  }

  function BondEntries(b: BondFile, keys: Keys): seq<Entry> {
    (if keys.mode then [Entry(b.name, "Bonding Mode", b.mode)] else [])
    + [Entry(b.name, "MII Status", b.mii)]
    + PortEntries(b.name, b.ports, keys)
  }

  function AllEntries(bonds: seq<BondFile>, keys: Keys): seq<Entry> {
    if bonds == [] then [] else BondEntries(bonds[0], keys) + AllEntries(bonds[1..], keys)
  }

  function Line(e: Entry): string {
    BOND_DIR + e.bond + ":" + e.key + ": " + e.value
  }

  function Lines(es: seq<Entry>): (ls: seq<string>)
    ensures |ls| == |es| && forall i :: 0 <= i < |es| ==> ls[i] == Line(es[i])
  {
    if es == [] then [] else [Line(es[0])] + Lines(es[1..])
  }

  function Unlines(ls: seq<string>): string {
    if ls == [] then "" else ls[0] + "\n" + Unlines(ls[1..])
  }

  /** The probe's output: every matching line, or the fallback that `|| echo` prints. */
  function Print(bonds: seq<BondFile>, keys: Keys, fallback: string): string {
    if bonds == [] then fallback + "\n" else Unlines(Lines(AllEntries(bonds, keys)))
  }

  // ---- what the parser makes of it ----

  datatype BondRecord = BondRecord(name: string, mode: string, slaves: seq<Port>)

  /** The parser's records so far and the bond its current slave belongs to. */
  datatype Parse = Parse(bonds: seq<BondRecord>, current: Option<string>)

  function Find(bonds: seq<BondRecord>, name: string): (i: int)
    ensures -1 <= i < |bonds|
    ensures i >= 0 ==> bonds[i].name == name && forall k :: 0 <= k < i ==> bonds[k].name != name
    ensures i < 0 ==> forall k :: 0 <= k < |bonds| ==> bonds[k].name != name
  {
    if bonds == [] then -1
    else if bonds[0].name == name then 0
    else
      var k := Find(bonds[1..], name);
      if k < 0 then -1 else k + 1
  }

  /** A current slave is the last one of a bond already seen. */
  predicate Coherent(st: Parse) {
    st.current.Some? ==>
      var i := Find(st.bonds, st.current.value);
      i >= 0 && st.bonds[i].slaves != []
  }

  function Touch(bonds: seq<BondRecord>, name: string): (r: seq<BondRecord>)
    ensures Find(r, name) >= 0
  {
    if Find(bonds, name) >= 0 then bonds
    else
      var r := bonds + [BondRecord(name, "", [])];
      assert r[|bonds|].name == name;
      r
  }

  function SetLast(slaves: seq<Port>, p: Port): seq<Port>
    requires slaves != []
  {
    slaves[..|slaves| - 1] + [p]
  }

  /** Cutting a line into file name, key and value; None when a colon is missing. */
  function Decode(line: string): Option<Entry> {
    match Cut(line, ':')
    case None => None
    case Some((head, body)) =>
      match Cut(TrimSpace(body), ':')
      case None => None
      case Some((key, val)) => Some(Entry(TrimPrefix(head, BOND_DIR), TrimSpace(key), TrimSpace(val)))
  }

  function Step(st: Parse, e: Entry): (r: Parse)
    requires Coherent(st)
    ensures Coherent(r)
  {
    var bonds := Touch(st.bonds, e.bond);
    var i := Find(bonds, e.bond);
    var b := bonds[i];
    var credited := st.current == Some(e.bond);
    var r :=
      if e.key == "Bonding Mode" then
        st.(bonds := bonds[i := b.(mode := e.value)])
      else if e.key == "Slave Interface" then
        Parse(bonds[i := b.(slaves := b.slaves + [Port(e.value, "", "")])], Some(e.bond))
      else if e.key == "MII Status" && credited then
        st.(bonds := bonds[i := b.(slaves := SetLast(b.slaves, b.slaves[|b.slaves| - 1].(mii := e.value)))])
      else if e.key == "Link Failure Count" && credited then
        st.(bonds := bonds[i := b.(slaves := SetLast(b.slaves, b.slaves[|b.slaves| - 1].(failures := e.value)))])
      else
        st.(bonds := bonds);
    assert Coherent(r) by {
      if r.current.Some? {
        FindUpdate(bonds, i, r.bonds, r.current.value);
        if st.current == r.current { FindTouch(st.bonds, e.bond, r.current.value); }
      }
    }
    r
  }

  /** Everything one line does, whatever the line. Records of other bonds stay; its own bond's record
      is made if there was none; a mode line sets the mode, a slave line adds a blank slave at the
      end and moves the cursor there, and a status or count line sets that field of the bond's
      last slave if the cursor is in this bond. Any other key changes no record. */
  lemma LineMeans(st: Parse, e: Entry)
    requires Coherent(st)
    ensures var r := Step(st, e);
      var old_, i := Find(st.bonds, e.bond), Find(r.bonds, e.bond);
      var was := if old_ >= 0 then st.bonds[old_] else BondRecord(e.bond, "", []);
      && i == (if old_ >= 0 then old_ else |st.bonds|)
      && |r.bonds| == |st.bonds| + (if old_ >= 0 then 0 else 1)
      && (forall k :: 0 <= k < |st.bonds| && k != i ==> r.bonds[k] == st.bonds[k])
      && RecordAfter(was, r.bonds[i], st.current == Some(e.bond), e)
      && r.current == if e.key == "Slave Interface" then Some(e.bond) else st.current
  {
    hide Find, Touch, RecordAfter, Coherent;
    var r, bonds := Step(st, e), Touch(st.bonds, e.bond);
    TouchedAt(st.bonds, e.bond);
    OwnRecord(st, e);
    FindUpdate(bonds, Find(bonds, e.bond), r.bonds, e.bond);
  }

  lemma OwnRecord(st: Parse, e: Entry)
    requires Coherent(st)
    ensures var bonds := Touch(st.bonds, e.bond);
      var i, r := Find(bonds, e.bond), Step(st, e);
      && |r.bonds| == |bonds| && (forall k :: 0 <= k < |bonds| && k != i ==> r.bonds[k] == bonds[k])
      && RecordAfter(bonds[i], r.bonds[i], st.current == Some(e.bond), e)
  {
    hide Find, Touch, Coherent;
    if st.current == Some(e.bond) { CreditedHasSlave(st, e.bond); }
  }

  lemma CreditedHasSlave(st: Parse, name: string)
    requires Coherent(st) && st.current == Some(name)
    ensures Touch(st.bonds, name)[Find(Touch(st.bonds, name), name)].slaves != []
  {
  }

  /** A bond's record after a line of its own; `credited` says that the cursor is in this bond. */
  predicate RecordAfter(was: BondRecord, now: BondRecord, credited: bool, e: Entry) {
    && now.name == was.name && now.mode == (if e.key == "Bonding Mode" then e.value else was.mode)
    && (e.key == "Slave Interface" ==> now.slaves == was.slaves + [Port(e.value, "", "")])
    && (e.key != "Slave Interface" ==> LastSlaveOnly(was.slaves, now.slaves, credited, e))
  }

  /** Of the slaves at most the last has changed, and only its status or its count. */
  predicate LastSlaveOnly(was: seq<Port>, now: seq<Port>, credited: bool, e: Entry) {
    && |now| == |was|
    && (forall k :: 0 <= k < |was| - 1 ==> now[k] == was[k])
    && (was != [] ==>
          var x, y := was[|was| - 1], now[|now| - 1];
          && y.name == x.name
          && y.mii == (if credited && e.key == "MII Status" then e.value else x.mii)
          && y.failures == (if credited && e.key == "Link Failure Count" then e.value else x.failures))
  }

  lemma TouchedAt(bonds: seq<BondRecord>, name: string)
    ensures var old_, r := Find(bonds, name), Touch(bonds, name);
      && Find(r, name) == (if old_ >= 0 then old_ else |bonds|)
      && |r| == |bonds| + (if old_ >= 0 then 0 else 1)
      && (forall k :: 0 <= k < |bonds| ==> r[k] == bonds[k])
      && (old_ < 0 ==> r[|bonds|] == BondRecord(name, "", []))
  {
    if Find(bonds, name) < 0 { FindLast(bonds, BondRecord(name, "", [])); }
  }

  /** An update that keeps every name keeps every lookup. */
  lemma {:induction false} FindUpdate(a: seq<BondRecord>, i: int, b: seq<BondRecord>, name: string)
    requires 0 <= i < |a| == |b|
    requires forall k :: 0 <= k < |a| ==> a[k].name == b[k].name
    ensures Find(a, name) == Find(b, name)
  {
    var x, y := Find(a, name), Find(b, name);
    if x >= 0 { assert b[x].name == name; }
    if y >= 0 { assert a[y].name == name; }
  }

  lemma FindTouch(bonds: seq<BondRecord>, touched: string, name: string)
    requires Find(bonds, name) >= 0
    ensures Find(Touch(bonds, touched), name) == Find(bonds, name)
  {
    var t := Touch(bonds, touched);
    var i := Find(bonds, name);
    assert t[i] == bonds[i];
  }

  function Fold(st: Parse, es: seq<Entry>): (r: Parse)
    requires Coherent(st)
    ensures Coherent(r)
    decreases |es|
  {
    if es == [] then st else Fold(Step(st, es[0]), es[1..])
  }

  /** The decodable lines, in order. */
  function Entries(lines: seq<string>): seq<Entry> {
    if lines == [] then []
    else
      var rest := Entries(lines[1..]);
      match Decode(lines[0])
      case None => rest
      case Some(e) => [e] + rest
  }

  const START := Parse([], None)

  /** The records `parseBonds` returns for a probe text. */
  function Parsed(raw: string): seq<BondRecord> {
    Fold(START, Entries(Split(TrimSpace(raw), '\n'))).bonds
  }

  // ---- parsing undoes printing ----

  predicate KnownKey(key: string) {
    key in {"Bonding Mode", "Slave Interface", "MII Status", "Link Failure Count"}
  }

  predicate EntryText(e: Entry) {
    FileNameText(e.bond) && KnownKey(e.key) && FieldText(e.value)
  }

  lemma KnownKeyShape(key: string)
    requires KnownKey(key)
    ensures key != "" && Trimmed(key) && ':' !in key && '\n' !in key
  {
    hide IsSpace;
    assert IsSpace(key[0]) == IsSpace(key[|key| - 1]) == false by { LettersAreNoSpace(); }
  }

  lemma LettersAreNoSpace()
    ensures forall c: char :: 'A' <= c <= 'z' ==> !IsSpace(c)
  {
  }

  lemma DirPrefix(name: string)
    ensures TrimPrefix(BOND_DIR + name, BOND_DIR) == name
  {
  }

  lemma DecodeShape(name: string, rest: string, key: string, val: string)
    requires ':' !in name && ':' !in key && Trimmed(key)
    requires TrimSpace(rest) == key + ":" + val
    ensures Decode(BOND_DIR + name + ":" + rest) == Some(Entry(name, key, TrimSpace(val)))
  {
    hide TrimSpace, IsSpace, IndexOf, Cut, Trimmed, TrimPrefix;
    var head := BOND_DIR + name;
    CutAt(head, ':', rest);
    CutAt(key, ':', val);
    DirPrefix(name);
    TrimOfTrimmed(key);
    assert BOND_DIR + name + ":" + rest == head + [':'] + rest;
    assert TrimSpace(rest) == key + [':'] + val;
  }

  lemma TrimSpaceAfterBlank(val: string)
    requires Trimmed(val)
    ensures TrimSpace(" " + val) == TrimSpace(val) == val
  {
    hide IsSpace;
    SpaceExamples();
    assert (" " + val)[1..] == val;
    TrimOfTrimmed(val);
  }

  lemma LineParts(e: Entry)
    ensures Line(e) == BOND_DIR + e.bond + ":" + (e.key + ": " + e.value)
  {
  }

  lemma DecodeWhole(e: Entry)
    requires EntryText(e)
    ensures Decode(Line(e)) == Some(e)
  {
    hide Decode, Line, IsSpace, TrimLeft, TrimRight, TrimSpace, KnownKey;
    KnownKeyShape(e.key);
    LineParts(e);
    BodyTrim(e.key, e.value);
    TrimSpaceAfterBlank(e.value);
    var body := e.key + ": " + e.value;
    if e.value == "" {
      assert TrimSpace(body) == e.key + ":" + "";
      TrimOfTrimmed("");
      DecodeShape(e.bond, body, e.key, "");
    } else {
      assert body == e.key + ":" + (" " + e.value);
      DecodeShape(e.bond, body, e.key, " " + e.value);
    }
  }

  lemma DecodeTrimmedLine(e: Entry)
    requires EntryText(e)
    ensures TrimRight(Line(e)) != "" && Decode(TrimRight(Line(e))) == Some(e)
  {
    hide Decode, Line, IsSpace, TrimLeft, TrimRight, TrimSpace, KnownKey;
    KnownKeyShape(e.key);
    LineParts(e);
    var head := BOND_DIR + e.bond + ":";
    var body := e.key + ": " + e.value;
    BodyTrim(e.key, e.value);
    TrimRightSuffix(head, body);
    if e.value == "" {
      var t := e.key + ":";
      assert t == e.key + ":" + "";
      assert TrimRight(Line(e)) == head + t;
      TrimOfTrimmed(t);
      TrimOfTrimmed("");
      DecodeShape(e.bond, t, e.key, "");
    } else {
      assert TrimRight(Line(e)) == Line(e);
      DecodeWhole(e);
    }
  }

  /** A printed line comes apart into the entry it was printed from, also after the
      trailing blank of an empty value has been trimmed away. */
  lemma DecodeOfLine(e: Entry)
    requires EntryText(e)
    ensures Decode(Line(e)) == Some(e)
    ensures TrimRight(Line(e)) != "" && Decode(TrimRight(Line(e))) == Some(e)
  {
    hide Decode, Line, TrimRight, EntryText;
    DecodeWhole(e);
    DecodeTrimmedLine(e);
  }

  lemma BodyTrim(key: string, val: string)
    requires key != "" && Trimmed(key) && Trimmed(val)
    ensures TrimRight(key + ": " + val) == TrimSpace(key + ": " + val)
         == if val == "" then key + ":" else key + ": " + val
    ensures Trimmed(key + ":")
  {
    hide IsSpace, TrimLeft, TrimRight;
    SpaceExamples();
    var body := key + ": " + val;
    TrimLeftKeeps(body);
    if val == "" {
      assert body == key + ":" + [' '];
      TrimRightDrops(key + ":", ' ');
      TrimRightKeeps(key + ":");
    } else {
      TrimRightKeeps(body);
    }
  }

  lemma LineShape(e: Entry)
    requires EntryText(e)
    ensures '\n' !in Line(e) && Line(e) != "" && !IsSpace(Line(e)[0])
  {
    KnownKeyShape(e.key);
    assert Line(e)[0] == BOND_DIR[0] == '/';
  }

  /** The lines that reach the parser: the last one has lost its trailing white space. */
  function TrimLast(ls: seq<string>): seq<string>
    requires ls != []
  {
    ls[..|ls| - 1] + [TrimRight(ls[|ls| - 1])]
  }

  lemma TrimRightNewline(s: string)
    ensures TrimRight(s + "\n") == TrimRight(s)
  {
    hide IsSpace, TrimRight;
    SpaceExamples();
    TrimRightDrops(s, '\n');
  }

  lemma {:induction false} TrimRightOfUnlines(ls: seq<string>)
    requires ls != [] && TrimRight(ls[|ls| - 1]) != ""
    ensures TrimRight(Unlines(ls)) == Join(TrimLast(ls), '\n') != ""
  {
    hide IsSpace, TrimRight;
    if |ls| == 1 {
      assert Unlines(ls[1..]) == "";
      assert Unlines(ls) == ls[0] + "\n";
      TrimRightNewline(ls[0]);
      assert TrimLast(ls) == [TrimRight(ls[0])];
    } else {
      TrimRightOfUnlines(ls[1..]);
      assert Unlines(ls) == (ls[0] + "\n") + Unlines(ls[1..]);
      TrimRightSuffix(ls[0] + "\n", Unlines(ls[1..]));
      var tl := TrimLast(ls);
      assert tl[1..] == TrimLast(ls[1..]) && tl[0] == ls[0];
      assert Join(tl, '\n') == ls[0] + ['\n'] + Join(tl[1..], '\n');
    }
  }

  lemma EntriesCons(ls: seq<string>, e: Entry)
    requires ls != [] && Decode(ls[0]) == Some(e)
    ensures Entries(ls) == [e] + Entries(ls[1..])
  {
    hide Decode;
  }

  lemma TrimLastOne(ls: seq<string>)
    requires |ls| == 1
    ensures TrimLast(ls) == [TrimRight(ls[0])]
  {
    hide TrimRight;
  }

  lemma LinesCons(es: seq<Entry>)
    requires es != []
    ensures Lines(es) == [Line(es[0])] + Lines(es[1..]) && Lines(es)[1..] == Lines(es[1..])
  {
    hide Line;
  }

  lemma TrimLastCons(ls: seq<string>)
    requires |ls| > 1
    ensures TrimLast(ls) != [] && TrimLast(ls)[0] == ls[0] && TrimLast(ls)[1..] == TrimLast(ls[1..])
  {
    hide TrimRight;
  }

  lemma {:induction false} EntriesOfLines(es: seq<Entry>)
    requires es != [] && forall e <- es :: EntryText(e)
    ensures Entries(TrimLast(Lines(es))) == es
  {
    hide Decode, IsSpace, TrimRight, EntryText, Entries, Line, Lines, TrimLast;
    var ls := Lines(es);
    LinesCons(es);
    DecodeOfLine(es[0]);
    if |es| == 1 {
      TrimLastOne(ls);
      assert TrimLast(ls) == [TrimRight(ls[0])];
      EntriesCons(TrimLast(ls), es[0]);
      assert TrimLast(ls)[1..] == [];
      NoEntriesInNothing();
      assert es == [es[0]];
    } else {
      EntriesOfLines(es[1..]);
      TrimLastCons(ls);
      EntriesCons(TrimLast(ls), es[0]);
      assert es == [es[0]] + es[1..];
    }
  }

  lemma NoEntriesInNothing()
    ensures Entries([]) == []
  {
  }

  /** The last line's white space at the end is all that trimming the text removes. */
  lemma TrimOfUnlines(ls: seq<string>)
    requires ls != [] && ls[0] != "" && !IsSpace(ls[0][0]) && TrimRight(ls[|ls| - 1]) != ""
    ensures TrimSpace(Unlines(ls)) == Join(TrimLast(ls), '\n')
  {
    hide IsSpace, TrimRight, TrimLeft, Join, TrimLast;
    TrimRightOfUnlines(ls);
    assert Unlines(ls)[0] == ls[0][0];
    TrimLeftKeeps(Unlines(ls));
  }

  lemma LinesHaveNoBreak(es: seq<Entry>)
    requires es != [] && forall e <- es :: EntryText(e)
    ensures forall l <- TrimLast(Lines(es)) :: '\n' !in l
  {
    hide Line, TrimRight, EntryText, IsSpace;
    var ls, tl := Lines(es), TrimLast(Lines(es));
    forall l | l in tl ensures '\n' !in l {
      var k :| 0 <= k < |tl| && tl[k] == l;
      assert l <= ls[k];
      LineShape(es[k]);
    }
  }

  lemma EntriesOfText(es: seq<Entry>)
    requires es != [] && forall e <- es :: EntryText(e)
    ensures Entries(Split(TrimSpace(Unlines(Lines(es))), '\n')) == es
  {
    hide Decode, IsSpace, TrimRight, TrimSpace, EntryText, Entries, Line, Split, Join, Unlines, TrimLast;
    var ls := Lines(es);
    LineShape(es[0]);
    DecodeOfLine(es[|es| - 1]);
    TrimOfUnlines(ls);
    LinesHaveNoBreak(es);
    TrimLastNotEmpty(ls);
    SplitOfJoin(TrimLast(ls), '\n');
    EntriesOfLines(es);
  }

  lemma TrimLastNotEmpty(ls: seq<string>)
    requires ls != []
    ensures |TrimLast(ls)| == |ls|
  {
  }

  lemma FoldNone(st: Parse)
    requires Coherent(st)
    ensures Fold(st, []) == st
  {
  }

  lemma FoldOne(st: Parse, e: Entry)
    requires Coherent(st)
    ensures Fold(st, [e]) == Step(st, e)
  {
    assert [e][1..] == [];
    FoldNone(Step(st, e));
  }

  lemma {:induction false} FoldAppend(st: Parse, a: seq<Entry>, b: seq<Entry>)
    requires Coherent(st)
    ensures Fold(st, a + b) == Fold(Fold(st, a), b)
    decreases |a|
  {
    if a == [] {
      assert a + b == b;
    } else {
      assert (a + b)[0] == a[0] && (a + b)[1..] == a[1..] + b;
      FoldAppend(Step(st, a[0]), a[1..], b);
    }
  }

  /** What of a port comes back from a probe with the given keys. */
  function Seen(p: Port, keys: Keys): Port {
    if keys.failures then p else p.(failures := "")
  }

  function SeenPorts(ps: seq<Port>, keys: Keys): (r: seq<Port>)
    ensures |r| == |ps| && forall i :: 0 <= i < |ps| ==> r[i] == Seen(ps[i], keys)
  {
    seq(|ps|, i requires 0 <= i < |ps| => Seen(ps[i], keys))
  }

  /** What of a bond comes back: everything but its own MII line, which no record carries. */
  function SeenBond(b: BondFile, keys: Keys): BondRecord {
    BondRecord(b.name, if keys.mode then b.mode else "", SeenPorts(b.ports, keys))
  }

  function SeenBonds(bonds: seq<BondFile>, keys: Keys): (r: seq<BondRecord>)
    ensures |r| == |bonds| && forall i :: 0 <= i < |bonds| ==> r[i] == SeenBond(bonds[i], keys)
  {
    seq(|bonds|, i requires 0 <= i < |bonds| => SeenBond(bonds[i], keys))
  }

  lemma FindLast(pre: seq<BondRecord>, rec: BondRecord)
    requires Find(pre, rec.name) < 0
    ensures Find(pre + [rec], rec.name) == |pre|
  {
    assert (pre + [rec])[|pre|] == rec;
  }

  lemma FindBeyond(pre: seq<BondRecord>, rec: BondRecord, name: string)
    requires Find(pre, name) < 0 && rec.name != name
    ensures Find(pre + [rec], name) < 0
  {
    var i := Find(pre + [rec], name);
    assert forall k :: 0 <= k <= |pre| ==> (pre + [rec])[k] == if k < |pre| then pre[k] else rec;
  }

  /** The bonds before the one being read, and the last record, are all there is. */
  predicate Reading(st: Parse, pre: seq<BondRecord>, rec: BondRecord) {
    Coherent(st) && st.bonds == pre + [rec] && Find(pre, rec.name) < 0
  }

  /** A slave line appends a port and moves the cursor to it. */
  lemma StepSlave(st: Parse, pre: seq<BondRecord>, rec: BondRecord, name: string)
    requires Reading(st, pre, rec)
    ensures Step(st, Entry(rec.name, "Slave Interface", name))
         == Parse(pre + [rec.(slaves := rec.slaves + [Port(name, "", "")])], Some(rec.name))
  {
    FindLast(pre, rec);
  }

  /** A status line sets the last port's status. */
  lemma StepStatus(st: Parse, pre: seq<BondRecord>, rec: BondRecord, ports: seq<Port>, p: Port, mii: string)
    requires Reading(st, pre, rec) && st.current == Some(rec.name) && rec.slaves == ports + [p]
    ensures Step(st, Entry(rec.name, "MII Status", mii))
         == Parse(pre + [rec.(slaves := ports + [p.(mii := mii)])], Some(rec.name))
  {
    FindLast(pre, rec);
    assert SetLast(rec.slaves, p.(mii := mii)) == ports + [p.(mii := mii)];
  }

  /** A count line sets the last port's failure count. */
  lemma StepCount(st: Parse, pre: seq<BondRecord>, rec: BondRecord, ports: seq<Port>, p: Port, failures: string)
    requires Reading(st, pre, rec) && st.current == Some(rec.name) && rec.slaves == ports + [p]
    ensures Step(st, Entry(rec.name, "Link Failure Count", failures))
         == Parse(pre + [rec.(slaves := ports + [p.(failures := failures)])], Some(rec.name))
  {
    FindLast(pre, rec);
    assert SetLast(rec.slaves, p.(failures := failures)) == ports + [p.(failures := failures)];
  }

  lemma OnePortEntries(bond: string, p: Port, keys: Keys)
    ensures PortEntries(bond, [p], keys) ==
      [Entry(bond, "Slave Interface", p.name)] + [Entry(bond, "MII Status", p.mii)]
      + if keys.failures then [Entry(bond, "Link Failure Count", p.failures)] else []
  {
    assert PortEntries(bond, [p][1..], keys) == [];
  }

  /** Reading one port's lines appends that port, whatever the cursor was before. */
  lemma StepPort(st: Parse, pre: seq<BondRecord>, rec: BondRecord, p: Port, keys: Keys)
    requires Reading(st, pre, rec)
    ensures Fold(st, PortEntries(rec.name, [p], keys))
         == Parse(pre + [rec.(slaves := rec.slaves + [Seen(p, keys)])], Some(rec.name))
  {
    hide Fold, Step, Coherent, Find, PortEntries;
    var e1, e2 := Entry(rec.name, "Slave Interface", p.name), Entry(rec.name, "MII Status", p.mii);
    var e3 := Entry(rec.name, "Link Failure Count", p.failures);
    OnePortEntries(rec.name, p, keys);
    var ports := rec.slaves;
    FoldOne(st, e1);
    StepSlave(st, pre, rec, p.name);
    var r1, s1 := rec.(slaves := ports + [Port(p.name, "", "")]), Step(st, e1);
    FoldOne(s1, e2);
    StepStatus(s1, pre, r1, ports, Port(p.name, "", ""), p.mii);
    FoldAppend(st, [e1], [e2]);
    if keys.failures {
      var r2, s2 := rec.(slaves := ports + [Port(p.name, p.mii, "")]), Step(s1, e2);
      FoldOne(s2, e3);
      StepCount(s2, pre, r2, ports, Port(p.name, p.mii, ""), p.failures);
      FoldAppend(st, [e1] + [e2], [e3]);
    } else {
      assert [e1] + [e2] + [] == [e1] + [e2];
    }
  }

  lemma {:induction false} FoldPorts(st: Parse, pre: seq<BondRecord>, rec: BondRecord, ports: seq<Port>, keys: Keys)
    requires Coherent(st) && st.bonds == pre + [rec] && Find(pre, rec.name) < 0
    ensures Fold(st, PortEntries(rec.name, ports, keys))
         == Parse(pre + [rec.(slaves := rec.slaves + SeenPorts(ports, keys))],
                  if ports == [] then st.current else Some(rec.name))
    decreases |ports|
  {
    hide Fold, Step, Coherent, Find, PortEntries;
    if ports == [] {
      NoPortEntries(rec.name, keys);
      FoldNone(st);
      assert rec.slaves + SeenPorts(ports, keys) == rec.slaves;
    } else {
      var p := ports[0];
      var first := PortEntries(rec.name, [p], keys);
      PortEntriesCons(rec.name, ports, keys);
      FoldAppend(st, first, PortEntries(rec.name, ports[1..], keys));
      StepPort(st, pre, rec, p, keys);
      var rec' := rec.(slaves := rec.slaves + [Seen(p, keys)]);
      FoldPorts(Fold(st, first), pre, rec', ports[1..], keys);
      assert rec.slaves + SeenPorts(ports, keys) == rec'.slaves + SeenPorts(ports[1..], keys);
    }
  }

  /** Reading one file's lines appends exactly its record; its own MII line, read before
      any of its ports, is credited to nobody. */
  lemma FoldBond(st: Parse, b: BondFile, keys: Keys)
    requires Coherent(st) && Find(st.bonds, b.name) < 0
    ensures Fold(st, BondEntries(b, keys))
         == Parse(st.bonds + [SeenBond(b, keys)], if b.ports == [] then st.current else Some(b.name))
  {
    var pre := st.bonds;
    var mode := if keys.mode then [Entry(b.name, "Bonding Mode", b.mode)] else [];
    var mii := [Entry(b.name, "MII Status", b.mii)];
    var ports := PortEntries(b.name, b.ports, keys);
    FoldAppend(st, mode + mii, ports);
    FoldHead(st, b, keys);
    var rec := BondRecord(b.name, if keys.mode then b.mode else "", []);
    FoldPorts(Fold(st, mode + mii), pre, rec, b.ports, keys);
    assert rec.slaves + SeenPorts(b.ports, keys) == SeenPorts(b.ports, keys);
  }

  lemma FoldHead(st: Parse, b: BondFile, keys: Keys)
    requires Coherent(st) && Find(st.bonds, b.name) < 0
    ensures Fold(st, (if keys.mode then [Entry(b.name, "Bonding Mode", b.mode)] else [])
                 + [Entry(b.name, "MII Status", b.mii)])
         == Parse(st.bonds + [BondRecord(b.name, if keys.mode then b.mode else "", [])], st.current)
  {
    hide Fold;
    var pre := st.bonds;
    assert st.current != Some(b.name);
    var e0, e1 := Entry(b.name, "Bonding Mode", b.mode), Entry(b.name, "MII Status", b.mii);
    FindLast(pre, BondRecord(b.name, "", []));
    if keys.mode {
      FoldAppend(st, [e0], [e1]);
      FoldOne(st, e0);
      var rec := BondRecord(b.name, b.mode, []);
      FindLast(pre, rec);
      assert Step(st, e0).bonds == pre + [rec];
      FoldOne(Step(st, e0), e1);
    } else {
      assert [] + [e1] == [e1];
      FoldOne(st, e1);
    }
  }

  predicate Unseen(recs: seq<BondRecord>, bonds: seq<BondFile>) {
    forall b <- bonds :: Find(recs, b.name) < 0
  }

  lemma UnseenRest(recs: seq<BondRecord>, bonds: seq<BondFile>, keys: Keys)
    requires bonds != [] && DistinctNames(bonds) && Unseen(recs, bonds)
    ensures Find(recs, bonds[0].name) < 0
    ensures DistinctNames(bonds[1..]) && Unseen(recs + [SeenBond(bonds[0], keys)], bonds[1..])
  {
    forall b | b in bonds[1..] ensures Find(recs + [SeenBond(bonds[0], keys)], b.name) < 0 {
      FindBeyond(recs, SeenBond(bonds[0], keys), b.name);
    }
  }

  lemma {:induction false} FoldBonds(st: Parse, bonds: seq<BondFile>, keys: Keys)
    requires Coherent(st) && DistinctNames(bonds) && Unseen(st.bonds, bonds)
    ensures Fold(st, AllEntries(bonds, keys)).bonds == st.bonds + SeenBonds(bonds, keys)
    decreases |bonds|
  {
    hide Fold, Coherent, BondEntries, Find, SeenBond, SeenBonds, Unseen, DistinctNames;
    if bonds == [] {
      FoldNone(st);
      assert st.bonds + SeenBonds(bonds, keys) == st.bonds;
    } else {
      UnseenRest(st.bonds, bonds, keys);
      FoldAppend(st, BondEntries(bonds[0], keys), AllEntries(bonds[1..], keys));
      FoldBond(st, bonds[0], keys);
      FoldBonds(Fold(st, BondEntries(bonds[0], keys)), bonds[1..], keys);
      assert st.bonds + SeenBonds(bonds, keys) == st.bonds + [SeenBond(bonds[0], keys)] + SeenBonds(bonds[1..], keys);
    }
  }

  lemma {:induction false} PortEntriesText(bond: string, ports: seq<Port>, keys: Keys)
    requires FileNameText(bond) && forall p <- ports :: PortText(p)
    ensures forall e <- PortEntries(bond, ports, keys) :: EntryText(e)
  {
    if ports != [] {
      PortEntriesText(bond, ports[1..], keys);
      assert PortText(ports[0]);
    }
  }

  lemma {:induction false} AllEntriesText(bonds: seq<BondFile>, keys: Keys)
    requires forall b <- bonds :: BondFileText(b)
    ensures forall e <- AllEntries(bonds, keys) :: EntryText(e)
    ensures bonds != [] ==> AllEntries(bonds, keys) != []
  {
    if bonds != [] {
      assert BondFileText(bonds[0]);
      PortEntriesText(bonds[0].name, bonds[0].ports, keys);
      AllEntriesText(bonds[1..], keys);
    }
  }

  /** Main result: parsing undoes printing. Bonds, modes, member order, status and failure
      count come back for every printable list of bonds and every choice of keys. */
  lemma ParseOfPrint(bonds: seq<BondFile>, keys: Keys, fallback: string)
    requires Printable(bonds)
    requires ':' !in fallback
    ensures Parsed(Print(bonds, keys, fallback)) == SeenBonds(bonds, keys)
  {
    if bonds == [] {
      FallbackHasNoEntries(fallback);
    } else {
      AllEntriesText(bonds, keys);
      EntriesOfText(AllEntries(bonds, keys));
      FoldBonds(START, bonds, keys);
      assert START.bonds + SeenBonds(bonds, keys) == SeenBonds(bonds, keys);
    }
  }

  lemma {:induction false} NoColonNoEntries(lines: seq<string>)
    requires forall l <- lines :: ':' !in l
    ensures Entries(lines) == []
  {
    if lines != [] { NoColonNoEntries(lines[1..]); }
  }

  lemma {:induction false} SplitChars(s: string, c: char)
    ensures forall p <- Split(s, c), x <- p :: x in s
    decreases |s|
  {
    if Cut(s, c).Some? { SplitChars(Cut(s, c).value.1, c); }
  }

  lemma FallbackHasNoEntries(fallback: string)
    requires ':' !in fallback
    ensures Entries(Split(TrimSpace(fallback + "\n"), '\n')) == []
  {
    var text := fallback + "\n";
    var t := TrimSpace(text);
    TrimLeftIsSuffix(text);
    assert forall x <- t :: x in TrimLeft(text) && x in text;
    SplitChars(t, '\n');
    NoColonNoEntries(Split(t, '\n'));
  }
}
