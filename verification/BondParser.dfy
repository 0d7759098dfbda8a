/** `parseBonds` as it runs: one pass over the lines that grows shared bond and slave
    records through a name index and a current-slave cursor. */
module BondParser {
  import opened Text
  import opened BondText

  class BondSlave {
    const name: string
    var miiStatus: string
    var failures: string

    constructor (name: string)
      ensures this.name == name && miiStatus == "" && failures == ""
    {
      this.name := name;
      miiStatus, failures := "", "";
    }
  }

  class BondInfo {
    const name: string
    var mode: string
    var slaves: seq<BondSlave>

    constructor (name: string)
      ensures this.name == name && mode == "" && slaves == []
    {
      this.name := name;
      mode, slaves := "", [];
    }
  }

  ghost function AllSlaves(order: seq<BondInfo>): set<BondSlave>
    reads order
  {
    set i, p | 0 <= i < |order| && 0 <= p < |order[i].slaves| :: order[i].slaves[p]
  }

  /** The shared records hold exactly these values, in this order. */
  ghost predicate Shows(order: seq<BondInfo>, recs: seq<BondRecord>)
    reads order, AllSlaves(order)
  {
    && |order| == |recs|
    && (forall i :: 0 <= i < |order| ==>
          order[i].name == recs[i].name && order[i].mode == recs[i].mode && |order[i].slaves| == |recs[i].slaves|)
    && (forall i, p :: 0 <= i < |order| && 0 <= p < |order[i].slaves| ==>
          && order[i].slaves[p].name == recs[i].slaves[p].name
          && order[i].slaves[p].miiStatus == recs[i].slaves[p].mii
          && order[i].slaves[p].failures == recs[i].slaves[p].failures)
  }

  /** Records are never shared: no bond is listed twice and no slave has two places. */
  ghost predicate Separate(order: seq<BondInfo>)
    reads order
  {
    && (forall i, j :: 0 <= i < j < |order| ==> order[i] != order[j])
    && (forall i, p, q :: 0 <= i < |order| && 0 <= p < q < |order[i].slaves| ==>
          order[i].slaves[p] != order[i].slaves[q])
    && (forall i, j, p, q :: 0 <= i < j < |order| && 0 <= p < |order[i].slaves| && 0 <= q < |order[j].slaves| ==>
          order[i].slaves[p] != order[j].slaves[q])
  }

  /** The name index points at the record with that name, for every record and no other. */
  ghost predicate Indexed(order: seq<BondInfo>, byName: map<string, BondInfo>) {
    && (forall b <- order :: b.name in byName && byName[b.name] == b)
    && (forall n <- byName :: byName[n] in order && byName[n].name == n)
  }

  /** The cursor is the last slave of the bond it was found in. */
  ghost predicate Pointing(byName: map<string, BondInfo>, current: BondSlave?, currentBond: string, st: Parse)
    reads byName.Values
  {
    if current == null then st.current == None
    else
      && st.current == Some(currentBond)
      && currentBond in byName
      && byName[currentBond].slaves != []
      && byName[currentBond].slaves[|byName[currentBond].slaves| - 1] == current
  }

  lemma FindIndexed(order: seq<BondInfo>, byName: map<string, BondInfo>, recs: seq<BondRecord>, name: string)
    requires Indexed(order, byName) && Shows(order, recs)
    ensures name in byName <==> Find(recs, name) >= 0
    ensures name in byName ==> Find(recs, name) < |order| && order[Find(recs, name)] == byName[name]
  {
    hide Find;
    var i := Find(recs, name);
    if name in byName {
      assert byName[name] in order;
      var k :| 0 <= k < |order| && order[k] == byName[name];
      assert order[i] in order;
    }
    if i >= 0 {
      assert order[i] in order;
    }
  }

  lemma SeparateMore(order: seq<BondInfo>, b: BondInfo)
    requires Separate(order) && b !in order && b.slaves == []
    ensures Separate(order + [b])
  {
  }

  lemma IndexedMore(order: seq<BondInfo>, byName: map<string, BondInfo>, b: BondInfo)
    requires Indexed(order, byName) && b.name !in byName
    ensures Indexed(order + [b], byName[b.name := b])
  {
    var more := order + [b];
    assert more[|order|] == b;
    forall n | n in byName ensures byName[n] in more { assert byName[n] in order; }
  }

  /** The record for a name, made on first sight. */
  method BondFor(order: seq<BondInfo>, byName: map<string, BondInfo>, name: string, ghost recs: seq<BondRecord>)
    returns (order': seq<BondInfo>, byName': map<string, BondInfo>, b: BondInfo)
    requires Separate(order) && Indexed(order, byName) && Shows(order, recs)
    ensures Separate(order') && Indexed(order', byName') && Shows(order', Touch(recs, name))
    ensures b in order' && name in byName' && byName'[name] == b
    ensures forall n <- byName :: n in byName' && byName'[n] == byName[n]
    ensures order' == (if name in byName then order else order + [b])
    ensures name !in byName ==> fresh(b) && b.slaves == []
  {
    hide Find, Separate, Indexed;
    FindIndexed(order, byName, recs, name);
    order', byName' := order, byName;
    if name !in byName {
      b := new BondInfo(name);
      SeparateMore(order, b);
      IndexedMore(order, byName, b);
      byName' := byName[name := b];
      order' := order + [b];
    } else {
      b := byName[name];
    }
  }

  method SetMode(order: seq<BondInfo>, ghost i: nat, b: BondInfo, mode: string, ghost recs: seq<BondRecord>)
    requires Separate(order) && Shows(order, recs) && i < |order| && order[i] == b
    modifies b
    ensures b.slaves == old(b.slaves) && Separate(order)
    ensures Shows(order, recs[i := recs[i].(mode := mode)])
  {
    b.mode := mode;
  }

  /** The slave has no place in any of the bonds yet. */
  ghost predicate Unplaced(order: seq<BondInfo>, sl: BondSlave)
    reads order
  {
    forall j, q :: 0 <= j < |order| && 0 <= q < |order[j].slaves| ==> order[j].slaves[q] != sl
  }

  method Attach(order: seq<BondInfo>, ghost i: nat, b: BondInfo, sl: BondSlave, ghost recs: seq<BondRecord>)
    requires Separate(order) && Shows(order, recs) && i < |order| && order[i] == b && Unplaced(order, sl)
    modifies b`slaves
    ensures b.slaves == old(b.slaves) + [sl]
    ensures Separate(order)
    ensures Shows(order, recs[i := recs[i].(slaves := recs[i].slaves + [Port(sl.name, sl.miiStatus, sl.failures)])])
  {
    b.slaves := b.slaves + [sl];
  }

  method AddSlave(order: seq<BondInfo>, ghost i: nat, b: BondInfo, name: string, ghost recs: seq<BondRecord>)
    returns (sl: BondSlave)
    requires Separate(order) && Shows(order, recs) && i < |order| && order[i] == b
    modifies b
    ensures fresh(sl) && b.slaves == old(b.slaves) + [sl]
    ensures Separate(order)
    ensures Shows(order, recs[i := recs[i].(slaves := recs[i].slaves + [Port(name, "", "")])])
  {
    sl := new BondSlave(name);
    Attach(order, i, b, sl, recs);
  }

  method SetStatus(order: seq<BondInfo>, ghost i: nat, current: BondSlave, status: string, ghost recs: seq<BondRecord>)
    requires Separate(order) && Shows(order, recs) && i < |order|
    requires order[i].slaves != [] && order[i].slaves[|order[i].slaves| - 1] == current
    modifies current
    ensures Shows(order, recs[i := recs[i].(slaves :=
                    SetLast(recs[i].slaves, recs[i].slaves[|recs[i].slaves| - 1].(mii := status)))])
  {
    current.miiStatus := status;
  }

  method SetFailures(order: seq<BondInfo>, ghost i: nat, current: BondSlave, failures: string,
                       ghost recs: seq<BondRecord>)
    requires Separate(order) && Shows(order, recs) && i < |order|
    requires order[i].slaves != [] && order[i].slaves[|order[i].slaves| - 1] == current
    modifies current
    ensures Shows(order, recs[i := recs[i].(slaves :=
                    SetLast(recs[i].slaves, recs[i].slaves[|recs[i].slaves| - 1].(failures := failures)))])
  {
    current.failures := failures;
  }

  /** One decoded line: the source's switch on the key. */
  method Absorb(order: seq<BondInfo>, byName: map<string, BondInfo>, b: BondInfo, e: Entry,
                current: BondSlave?, currentBond: string, ghost st: Parse)
    returns (current': BondSlave?, currentBond': string)
    requires Coherent(st)
    requires Separate(order) && Indexed(order, byName) && Shows(order, Touch(st.bonds, e.bond))
    requires e.bond in byName && byName[e.bond] == b
    requires Pointing(byName, current, currentBond, st)
    modifies b, set s | s in b.slaves
    ensures Separate(order) && Indexed(order, byName) && Shows(order, Step(st, e).bonds)
    ensures Pointing(byName, current', currentBond', Step(st, e))
    ensures b.slaves == old(b.slaves) || (current' != null && fresh(current') && b.slaves == old(b.slaves) + [current'])
  {
    hide Find, Touch, Shows, Separate, Indexed;
    current', currentBond' := current, currentBond;
    ghost var recs := Touch(st.bonds, e.bond);
    ghost var i := Find(recs, e.bond);
    FindIndexed(order, byName, recs, e.bond);
    if e.key == "Bonding Mode" {
      SetMode(order, i, b, e.value, recs);
    } else if e.key == "Slave Interface" {
      current' := AddSlave(order, i, b, e.value, recs);
      currentBond' := e.bond;
    } else if e.key == "MII Status" {
      if current != null && currentBond == e.bond {
        SetStatus(order, i, current, e.value, recs);
      }
    } else if e.key == "Link Failure Count" {
      if current != null && currentBond == e.bond {
        SetFailures(order, i, current, e.value, recs);
      }
    }
  }

  method ParseBonds(raw: string) returns (order: seq<BondInfo>)
    ensures Shows(order, Parsed(raw))
    ensures Separate(order) && forall b <- order :: fresh(b) && forall s <- b.slaves :: fresh(s)
  {
    hide Find, Touch, Step, Coherent, Decode, Shows, Separate, Indexed, Split, TrimSpace;
    var byName: map<string, BondInfo> := map[];
    order := [];
    var current: BondSlave? := null;
    var currentBond := "";
    var lines := Split(TrimSpace(raw), '\n');
    ghost var st := START;
    StartCoherent(byName);
    assert lines[0..] == lines;
    for n := 0 to |lines|
      invariant Coherent(st)
      invariant Fold(START, Entries(lines)) == Fold(st, Entries(lines[n..]))
      invariant forall b <- order :: fresh(b) && forall s <- b.slaves :: fresh(s)
      invariant Separate(order) && Indexed(order, byName) && Shows(order, st.bonds)
      invariant Pointing(byName, current, currentBond, st)
    {
      assert lines[n..][0] == lines[n] && lines[n..][1..] == lines[n + 1..];
      var d := Decode(lines[n]);
      if d.None? { continue; }
      var b;
      order, byName, b := BondFor(order, byName, d.value.bond, st.bonds);
      assert b in order && fresh(b) && forall s <- b.slaves :: fresh(s);
      current, currentBond := Absorb(order, byName, b, d.value, current, currentBond, st);
      EntriesCons(lines[n..], d.value);
      st := Step(st, d.value);
    }
    assert lines[|lines|..] == [];
  }

  lemma StartCoherent(byName: map<string, BondInfo>)
    requires byName == map[]
    ensures Coherent(START) && Shows([], START.bonds) && Separate([]) && Indexed([], byName)
    ensures Pointing(byName, null, "", START)
  {
  }
}
