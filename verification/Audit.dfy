/** The audit log's ring buffer, as a window on an unbounded log. */
module Audit {

  datatype AuditEntry = AuditEntry(timestamp: int, user: string, clusterName: string,
                                   action: string, command: string, status: string)

  /** The last `n` entries of a log, or all of them when there are fewer. */
  function Last(log: seq<AuditEntry>, n: int): seq<AuditEntry> {
    if n <= 0 then [] else if n >= |log| then log else log[|log| - n..]
  }

  const ZERO := AuditEntry(0, "", "", "", "", "")

  /** The remainder that keeps an index inside the buffer. */
  function Mod(x: nat, m: nat): (r: nat)
    requires m >= 1
    ensures r < m
  {
    x % m
  }

  lemma Wrap(x: nat, m: nat)
    requires m >= 1 && x < 2 * m
    ensures Mod(x, m) == if x < m then x else x - m
  {
  }

  /** A buffer that holds the last entries of a log, the oldest of them at `head`. */
  predicate Window(buf: seq<AuditEntry>, head: nat, count: nat, log: seq<AuditEntry>) {
    && |buf| >= 1 && head < |buf|
    && count == (if |log| < |buf| then |log| else |buf|)
    && (count < |buf| ==> head == 0)
    && (forall i :: head <= i < count ==> buf[i] == log[|log| - count + i - head])
    && (forall i :: 0 <= i < head ==> buf[i] == log[|log| - head + i])
  }

  lemma Grow(buf: seq<AuditEntry>, head: nat, count: nat, log: seq<AuditEntry>, e: AuditEntry)
    requires Window(buf, head, count, log) && count < |buf|
    ensures Window(buf[count := e], head, count + 1, log + [e])
  {
  }

  lemma Overwrite(buf: seq<AuditEntry>, head: nat, count: nat, log: seq<AuditEntry>, e: AuditEntry)
    requires Window(buf, head, count, log) && count == |buf|
    ensures Window(buf[head := e], Mod(head + 1, |buf|), count, log + [e])
  {
    hide Mod;
    Wrap(head + 1, |buf|);
  }

  /** Where the last `n` entries start in the buffer. */
  function First(size: nat, head: nat, count: nat, n: nat): nat
    requires size >= 1 && n <= count
  {
    if count < size then count - n else Mod(head + count - n, size)
  }

  /** From there they follow, wrapping around at the end of the buffer. */
  lemma Follow(buf: seq<AuditEntry>, head: nat, count: nat, log: seq<AuditEntry>, n: nat, i: nat)
    requires Window(buf, head, count, log) && i < n <= count
    ensures buf[Mod(First(|buf|, head, count, n) + i, |buf|)] == log[|log| - n + i]
  {
    hide Mod;
    Wrap(head + count - n, |buf|);
    Wrap(First(|buf|, head, count, n) + i, |buf|);
  }

  class AuditLog {
    const buf: array<AuditEntry>
    const maxSize: nat
    var head: nat
    var count: nat
    /** Everything ever recorded, oldest first. */
    ghost var log: seq<AuditEntry>

    ghost predicate Valid()
      reads this, buf
    {
      buf.Length == maxSize && Window(buf[..], head, count, log)
    }

    constructor (maxSize: int)
      ensures Valid() && fresh(buf) && log == []
      ensures this.maxSize == if maxSize <= 0 then 10000 else maxSize
    {
      var size := if maxSize <= 0 then 10000 else maxSize;
      this.maxSize := size;
      buf := new AuditEntry[size](_ => ZERO);
      head, count := 0, 0;
      log := [];
    }

    method Record(entry: AuditEntry)
      requires Valid()
      modifies this, buf
      ensures Valid() && log == old(log) + [entry]
    {
      hide Mod, Window;
      Sizes();
      if count < maxSize {
        Grow(buf[..], head, count, log, entry);
        buf[count] := entry;
        count := count + 1;
        log := log + [entry];
        return;
      }
      Overwrite(buf[..], head, count, log, entry);
      buf[head] := entry;
      head := Mod(head + 1, maxSize);
      log := log + [entry];
    }

    lemma Sizes()
      requires Valid()
      ensures maxSize >= 1 && head < maxSize && count == (if |log| < maxSize then |log| else maxSize)
    {
    }

    method Recent(n: int) returns (result: seq<AuditEntry>)
      requires Valid()
      ensures result == Last(log, if n < maxSize then n else maxSize)
    {
      hide Mod, Window;
      Sizes();
      var n := if n > count then count else n;
      if n <= 0 { return []; }
      var out := new AuditEntry[n](_ => ZERO);
      var start: nat;
      if count < maxSize {
        start := count - n;
      } else {
        start := Mod(head + count - n, maxSize);
      }
      for i := 0 to n
        invariant forall k :: 0 <= k < i ==> out[k] == log[|log| - n + k]
      {
        Follow(buf[..], head, count, log, n, i);
        out[i] := buf[Mod(start + i, maxSize)];
      }
      result := out[..];
    }
  }

  lemma LastAt(log: seq<AuditEntry>, n: int)
    ensures n <= 0 ==> Last(log, n) == []
    ensures n > 0 ==> |Last(log, n)| == if n < |log| then n else |log|
    ensures forall k :: 0 <= k < |Last(log, n)| ==> Last(log, n)[k] == log[|log| - |Last(log, n)| + k]
  {
  }

  /** Any sequence of entries, recorded into a fresh log and read back: the newest ones, as many
      as are asked for, kept and recorded, in the order they were recorded. */
  method RecordAll(maxSize: int, entries: seq<AuditEntry>, n: int) returns (result: seq<AuditEntry>)
    ensures var size := if maxSize <= 0 then 10000 else maxSize;
      && (n <= 0 ==> result == [])
      && (n > 0 ==> |result| <= n && |result| <= size && |result| <= |entries|)
      && (n > 0 ==> |result| == n || |result| == size || |result| == |entries|)
    ensures forall k :: 0 <= k < |result| ==> result[k] == entries[|entries| - |result| + k]
  {
    hide Last, Window;
    var size := if maxSize <= 0 then 10000 else maxSize;
    LastAt(entries, if n < size then n else size);
    var a := new AuditLog(maxSize);
    for i := 0 to |entries|
      invariant a.Valid() && fresh(a) && fresh(a.buf) && a.log == entries[..i]
      invariant a.maxSize == if maxSize <= 0 then 10000 else maxSize
    {
      a.Record(entries[i]);
      assert entries[..i + 1] == entries[..i] + [entries[i]];
    }
    assert entries[..|entries|] == entries;
    result := a.Recent(n);
  }
}
